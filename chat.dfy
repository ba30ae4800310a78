/**
 * Chat sessions as the bot keeps them: one history of turns per sender,
 * created from the session's opening exchange the first time the sender
 * writes and extended by one user turn and one model turn per answered message.
 */
module Chat {
  import opened Wrappers

  /** One entry of a chat history: who spoke and the text parts of the turn. */
  datatype Turn = Turn(role: string, parts: seq<string>)

  const UserRole := "user"
  const ModelRole := "model"

  /** The history the sender continues: the stored one, or a fresh session primed with `primer`. */
  function Opened(sessions: map<string, seq<Turn>>, sender: string, primer: seq<Turn>): seq<Turn> {
    if sender in sessions then sessions[sender] else primer
  }

  /**
   * The history after sending `message`: a successful answer appends the
   * user's turn and the model's turn; a failed call leaves it as it was.
   */
  function Exchanged(history: seq<Turn>, message: string, answer: Option<string>): (h: seq<Turn>)
    ensures answer.None? ==> h == history
    ensures answer.Some? ==> |h| == |history| + 2 && h[..|history|] == history
    ensures answer.Some? ==> h[|history|] == Turn(UserRole, [message])
    ensures answer.Some? ==> h[|history| + 1] == Turn(ModelRole, [answer.value])
  {
    match answer
    case None => history
    case Some(text) => history + [Turn(UserRole, [message]), Turn(ModelRole, [text])]
  }

  /** Storing a history for a sender replaces whatever the map held for that sender before. */
  lemma StoreOverrides(sessions: map<string, seq<Turn>>, sender: string, first: seq<Turn>, second: seq<Turn>)
    ensures sessions[sender := first][sender := second] == sessions[sender := second]
  {
    var a := sessions[sender := first][sender := second];
    var b := sessions[sender := second];
    assert a.Keys == b.Keys;
    forall k | k in a ensures a[k] == b[k] { }
  }

  /**
   * One message from `sender` leaves every other sender's session as it
   * was, and the sender's history only grows: the stored one for a known
   * sender, the primed one for a new sender.
   */
  lemma SessionStep(sessions: map<string, seq<Turn>>, sender: string, primer: seq<Turn>,
                    message: string, answer: Option<string>)
    ensures var after := sessions[sender := Exchanged(Opened(sessions, sender, primer), message, answer)];
      forall other :: other in sessions && other != sender ==> other in after && after[other] == sessions[other]
    ensures var after := sessions[sender := Exchanged(Opened(sessions, sender, primer), message, answer)];
      sender in sessions ==> after[sender][..|sessions[sender]|] == sessions[sender]
    ensures var after := sessions[sender := Exchanged(Opened(sessions, sender, primer), message, answer)];
      sender !in sessions ==> after[sender][..|primer|] == primer
  {
    var h := Opened(sessions, sender, primer);
    var e := Exchanged(h, message, answer);
    assert e[..|h|] == h;
  }
}
