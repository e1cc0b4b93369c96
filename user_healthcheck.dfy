/** Whether at least one Neos user exists. */
module UserHealthcheck {
  import opened PhpStrings
  import opened HealthcheckDomain

  const Title := "Neos user"

  const CreateUserCommand := "./flow user:create --roles Administrator admin admin Jon Doe"

  const NoUserMessage := "No Neos user created yet. To create an user run <code>" + CreateUserCommand + "</code>"

  /** The check over the number of users the repository holds. */
  function Execute(userCount: nat): (h: Health)
    ensures h.status == Error <==> userCount == 0
    ensures h.status == Ok <==> userCount > 0
    ensures h.status == Error ==> Contains(h.message, CreateUserCommand)
  {
    if userCount == 0 then
      ContainsMiddle("No Neos user created yet. To create an user run <code>", CreateUserCommand, "</code>");
      Health(NoUserMessage, Error)
    else Health("At least one Neos user exists", Ok)
  }
}
