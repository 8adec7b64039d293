/** What a log of flag writes does to the user store, independent of how the
    log was produced: per-user effect, composition, and the fields that never
    change. */
module DetectorStore {
  import opened Common
  import opened Seqs
  import opened Models
  import opened Detector

  lemma {:induction false} TargetsConcat(a: seq<FlagWrite>, b: seq<FlagWrite>)
    ensures Targets(a + b) == Targets(a) + Targets(b)
  {
  }

  lemma {:induction false} WritesToConcat(a: seq<FlagWrite>, b: seq<FlagWrite>, id: UserId)
    ensures WritesTo(a + b, id) == WritesTo(a, id) + WritesTo(b, id)
  {
    TargetsConcat(a, b);
    OccurrencesAppend(Targets(a), Targets(b), id);
  }

  /** Each stored user ends up as `Outcome` says: +1 on `timesCaught` per
      write aimed at it, flagged with the reason of its last write, and
      otherwise untouched. */
  lemma {:induction false} ApplyEffect(users: seq<User>, log: seq<FlagWrite>, i: int)
    requires 0 <= i < |users|
    ensures Apply(users, log)[i] == Outcome(users[i], log)
    decreases |log|
  {
    if |log| > 0 {
      var init := log[..|log| - 1];
      var w := log[|log| - 1];
      assert log == init + [w];
      ApplyEffect(users, init, i);
      var before := Apply(users, init)[i];
      assert before.id == users[i].id;
      assert Apply(users, log)[i] == if before.id == w.userId then FlagUser(before, w.cause) else before;
      OutcomeSnoc(users[i], init, w);
    }
  }

  /** One more write flags its target once more and leaves everyone else
      as they were. */
  lemma OutcomeSnoc(u: User, init: seq<FlagWrite>, w: FlagWrite)
    ensures Outcome(u, init + [w]) == if w.userId == u.id then FlagUser(Outcome(u, init), w.cause) else Outcome(u, init)
  {
    WritesSnoc(init, w, u.id);
    OccurrencesPositive(Targets(init), u.id);
  }

  /** One more write adds one to its target's count and becomes its last
      cause; other ids are unaffected. */
  lemma WritesSnoc(init: seq<FlagWrite>, w: FlagWrite, id: UserId)
    ensures WritesTo(init + [w], id) == WritesTo(init, id) + (if w.userId == id then 1 else 0)
    ensures LastCauseTo(init + [w], id) == if w.userId == id then Some(w.cause) else LastCauseTo(init, id)
  {
    WritesToConcat(init, [w], id);
    var t := Targets([w]);
    assert t == [w.userId] && t[1..] == [];
    assert Occurrences(t, id) == (if w.userId == id then 1 else 0) + Occurrences(t[1..], id);
    assert (init + [w])[..|init|] == init;
  }

  /** Applying two logs in turn is applying their concatenation. */
  lemma {:induction false} ApplyConcat(users: seq<User>, a: seq<FlagWrite>, b: seq<FlagWrite>)
    ensures Apply(Apply(users, a), b) == Apply(users, a + b)
    decreases |b|
  {
    if |b| == 0 {
      assert a + b == a;
    } else {
      var init := b[..|b| - 1];
      assert (a + b)[..|a + b| - 1] == a + init;
      ApplyConcat(users, a, init);
    }
  }

  /** A log never changes who is stored, in which order, nor anything the
      detector reads: the profiles of the store are unchanged. */
  lemma {:induction false} ApplyKeepsProfiles(users: seq<User>, log: seq<FlagWrite>)
    ensures Profiles(Apply(users, log)) == Profiles(users)
  {
    var r := Apply(users, log);
    forall i | 0 <= i < |users|
      ensures ProfileOf(r[i]) == ProfileOf(users[i])
    {
      ApplyEffect(users, log, i);
    }
  }

  /** Only `isFlagged`, `flagReason` and `timesCaught` are ever written, and
      `timesCaught` never decreases. */
  lemma {:induction false} ApplyTouchesOnlyFlagFields(users: seq<User>, log: seq<FlagWrite>, i: int)
    requires 0 <= i < |users|
    ensures var u := Apply(users, log)[i];
            && u.(isFlagged := users[i].isFlagged, flagReason := users[i].flagReason,
                  timesCaught := users[i].timesCaught) == users[i]
            && u.timesCaught >= users[i].timesCaught
            && (users[i].isFlagged ==> u.isFlagged)
  {
    ApplyEffect(users, log, i);
  }
}
