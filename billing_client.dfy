/** The billing service client as seen by the patient service: a fake that
    records every `createBillingAccount` request it is sent. */
module BillingClient {

  /** One `createBillingAccount(patientId, name, email)` request. */
  datatype BillingCall = BillingCall(patientId: string, name: string, email: string)

  class BillingServiceGrpcClient {
    var calls: seq<BillingCall>

    constructor ()
      ensures calls == []
    {
      calls := [];
    }

    method CreateBillingAccount(patientId: string, name: string, email: string)
      modifies this
      ensures calls == old(calls) + [BillingCall(patientId, name, email)]
    {
      calls := calls + [BillingCall(patientId, name, email)];
    }
  }
}
