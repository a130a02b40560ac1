/** The checks applied to a chat message body and to a display name before
    they reach the log or the registry. Both look at the trimmed text. */
module Validation {
  import opened Text

  const MessageLimit := 100
  const NameLimit := 10

  const EmptyMessage := "Invalid message. Message cannot be empty."
  const LongMessage := "Invalid message. Message cannot be longer than 100 characters."
  const EmptyName := "Invalid name. Name cannot be empty."
  const LongName := "Invalid name. Name cannot be longer than 10 characters."
  const UserNotFound := "User not found."

  datatype Verdict = Accepted | Rejected(error: string)

  /** The two guards in order: empty after trimming, then longer than `limit`
      after trimming. */
  function Check(s: string, limit: nat, emptyError: string, longError: string): (v: Verdict)
    ensures v.Accepted? <==> 0 < |Trim(s)| <= limit
    ensures v.Rejected? ==> v.error == if AllSpace(s) then emptyError else longError
  {
    TrimAllSpace(s);
    if |Trim(s)| == 0 then Rejected(emptyError)
    else if |Trim(s)| > limit then Rejected(longError)
    else Accepted
  }

  /** A message is accepted exactly when its trimmed body has 1 to 100
      characters; a body of whitespace only gets the "empty" error. */
  function CheckMessage(message: string): (v: Verdict)
    ensures v.Accepted? <==> 0 < |Trim(message)| <= MessageLimit
    ensures v.Rejected? ==> v.error == if AllSpace(message) then EmptyMessage else LongMessage
  {
    Check(message, MessageLimit, EmptyMessage, LongMessage)
  }

  /** A name is accepted exactly when its trimmed form has 1 to 10 characters. */
  function CheckName(name: string): (v: Verdict)
    ensures v.Accepted? <==> 0 < |Trim(name)| <= NameLimit
    ensures v.Rejected? ==> v.error == if AllSpace(name) then EmptyName else LongName
  {
    Check(name, NameLimit, EmptyName, LongName)
  }
}
