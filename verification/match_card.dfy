/** The client-side prediction window of a match card, the label of its
    action button and its result line, compared with the server's window. */
module MatchCard {
  import opened Common
  import opened Models
  import opened Predictions

  /** The three window flags the card computes at `now`. */
  datatype CardWindow = CardWindow(notStarted: bool, open: bool, locked: bool)

  function Window(m: Match, now: Millis): (w: CardWindow)
    ensures w.notStarted <==> StartsLater(m, now)
    ensures !(w.open && w.locked)
    ensures w.open || w.locked || w.notStarted
  {
    var notStarted := m.predictionStartDate.Some? && now < m.predictionStartDate.value;
    CardWindow(notStarted, !notStarted && now < m.predictionDeadline, now >= m.predictionDeadline)
  }

  /** The card's "open" is the server's window minus the deadline instant:
      wherever the card shows the window open the server accepts, and the
      only instant the server accepts while the card does not is the
      deadline itself. */
  lemma CardAgreesWithServer(m: Match, now: Millis)
    ensures Window(m, now).open ==> WindowOpen(m, now)
    ensures WindowOpen(m, now) && !Window(m, now).open <==> WindowOpen(m, now) && now == m.predictionDeadline
    ensures Window(m, now).locked <==> now >= m.predictionDeadline
  {
  }

  /** At exactly the deadline (after any start date) the card shows the
      window locked while the server still accepts a prediction. */
  lemma DeadlineInstant(m: Match)
    requires !StartsLater(m, m.predictionDeadline)
    ensures Window(m, m.predictionDeadline).locked && !Window(m, m.predictionDeadline).open
    ensures WindowOpen(m, m.predictionDeadline)
  {
  }

  datatype ButtonLabel = ViewResult | ViewYourPrediction | ComingSoon | PredictionsLocked | MakePrediction

  /** A `userPrediction` prop that is a non-empty string. */
  predicate HasPick(pick: Option<string>) {
    pick.Some? && pick.value != ""
  }

  /** The action button's text, first matching case wins. */
  function Label(m: Match, pick: Option<string>, now: Millis): (l: ButtonLabel)
    ensures l == ViewResult <==> m.status == Completed
    ensures l == ViewYourPrediction <==> m.status != Completed && HasPick(pick)
    ensures l == ComingSoon <==> m.status != Completed && !HasPick(pick) && Window(m, now).notStarted
    ensures l == PredictionsLocked <==>
              m.status != Completed && !HasPick(pick) && !Window(m, now).notStarted && Window(m, now).locked
    ensures l == MakePrediction <==> m.status != Completed && !HasPick(pick) && Window(m, now).open
  {
    var w := Window(m, now);
    if m.status == Completed then ViewResult
    else if HasPick(pick) then ViewYourPrediction
    else if w.notStarted then ComingSoon
    else if w.locked then PredictionsLocked
    else MakePrediction
  }

  /** The button invites a prediction on an upcoming match only when the
      server's window and status checks would both pass. */
  lemma InviteIsAccepted(m: Match, pick: Option<string>, now: Millis)
    requires m.status == Upcoming && Label(m, pick, now) == MakePrediction
    ensures WindowOpen(m, now) && m.status == Upcoming
  {
    CardAgreesWithServer(m, now);
  }

  /** The verdict line and its points text. */
  datatype Verdict = Correct | Wrong {
    function PointsShown(): int {
      match this
      case Correct => 10
      case Wrong => -2
    }
  }

  /** Shown only for a completed match the user predicted on: correct iff the
      winner is the user's pick (a completed match with no winner reads as
      wrong). */
  function ResultLine(m: Match, pick: Option<string>): (r: Option<Verdict>)
    ensures r.Some? <==> HasPick(pick) && m.status == Completed
    ensures r == Some(Correct) <==> HasPick(pick) && m.status == Completed && m.winner == Some(pick.value)
  {
    if HasPick(pick) && m.status == Completed then
      Some(if m.winner == Some(pick.value) then Correct else Wrong)
    else None
  }
}
