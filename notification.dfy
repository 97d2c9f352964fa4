/** The text of the notification shown for a reported transition. */
module Notification {
  import opened Wrappers

  datatype Message = Message(title: string, body: string)

  /** The message for a `from` → `to` report, or none for a pair it does not know. */
  function GetNotificationMessage(from: string, to: string): Option<Message>
  {
    if from == "timer" && to == "finished" then
      Some(Message("Timer Finished!", "Your timer has completed."))
    else if from == "Work" && to == "ShortBreak" then
      Some(Message("Break Time!", "Take a short break."))
    else if from == "Work" && to == "LongBreak" then
      Some(Message("Long Break!", "Great work! Take a longer break."))
    else if (from == "ShortBreak" || from == "LongBreak") && to == "Work" then
      Some(Message("Back to Work!", "Time to focus."))
    else
      None
  }

  /** The five pairs that have a message. */
  const KnownPairs: set<(string, string)> :=
    {("timer", "finished"), ("Work", "ShortBreak"), ("Work", "LongBreak"),
     ("ShortBreak", "Work"), ("LongBreak", "Work")}

  /** There is a message exactly for the five known pairs; every other pair has none. */
  lemma MessageDefinedIff(from: string, to: string)
    ensures GetNotificationMessage(from, to).Some? <==> (from, to) in KnownPairs
  {
  }

  /** Both breaks end with the same message. */
  lemma BreakEndsShareMessage()
    ensures GetNotificationMessage("ShortBreak", "Work") == GetNotificationMessage("LongBreak", "Work")
    ensures GetNotificationMessage("ShortBreak", "Work") == Some(Message("Back to Work!", "Time to focus."))
  {
  }

  /** The messages of the known pairs, and no message for an unknown one. */
  lemma MessageExamples()
    ensures GetNotificationMessage("timer", "finished") == Some(Message("Timer Finished!", "Your timer has completed."))
    ensures GetNotificationMessage("Work", "ShortBreak") == Some(Message("Break Time!", "Take a short break."))
    ensures GetNotificationMessage("Work", "LongBreak") == Some(Message("Long Break!", "Great work! Take a longer break."))
    ensures GetNotificationMessage("unknown", "unknown") == None
  {
  }
}
