/** The event producer as seen by the patient service: a fake that records
    every patient it is asked to publish an event for. */
module EventProducer {
  import opened PatientModel

  class KafkaProducer {
    var sent: seq<Patient>

    constructor ()
      ensures sent == []
    {
      sent := [];
    }

    method SendEvent(p: Patient)
      modifies this
      ensures sent == old(sent) + [p]
    {
      sent := sent + [p];
    }
  }
}
