/** The result type every health check returns: a severity and a message for the user. */
module HealthcheckDomain {

  datatype Status = Ok | Warning | Error

  datatype Health = Health(message: string, status: Status)
}
