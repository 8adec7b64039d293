/** The summary the admin copy of the detector returns: the e-mail list
    de-duplicated through a JavaScript `Map`, and the three counters, related
    to the per-user effect of the pass. */
module AdminReport {
  import opened Common
  import opened Seqs
  import opened Models
  import opened Detector
  import opened DetectorStore
  import opened DetectorIp
  import opened DetectorCoords
  import opened DetectorPass

  // ------------------------------------------------------ flagged users

  /** One `flaggedUsers.push({ email, reason })`. */
  datatype Entry = Entry(email: string, reason: string)

  /** The entry the admin copy pushes for one write. */
  function EntryOf(w: FlagWrite): Entry {
    Entry(w.email, SummaryReason(w.cause))
  }

  function Entries(log: seq<FlagWrite>): (es: seq<Entry>)
    ensures |es| == |log|
    ensures forall i | 0 <= i < |log| :: es[i] == EntryOf(log[i])
  {
    seq(|log|, i requires 0 <= i < |log| => EntryOf(log[i]))
  }

  function EmailsOf(es: seq<Entry>): (r: seq<string>)
    ensures |r| == |es|
    ensures forall i | 0 <= i < |es| :: r[i] == es[i].email
  {
    seq(|es|, i requires 0 <= i < |es| => es[i].email)
  }

  /** `map.set(e.email, e)` on an insertion-ordered `Map` whose values are
      listed in key order: a known key keeps its place and takes the new
      value, a new key goes last. */
  function Put(m: seq<Entry>, e: Entry): (r: seq<Entry>)
    ensures EmailsOf(r) == if e.email in EmailsOf(m) then EmailsOf(m) else EmailsOf(m) + [e.email]
  {
    if e.email in EmailsOf(m) then
      seq(|m|, k requires 0 <= k < |m| => if m[k].email == e.email then e else m[k])
    else m + [e]
  }

  /** `Array.from(new Map(es.map(u => [u.email, u])).values())`. */
  function BuildMap(es: seq<Entry>): (m: seq<Entry>)
    ensures EmailsOf(m) == Distinct(EmailsOf(es))
  {
    if |es| == 0 then []
    else
      var init := es[..|es| - 1];
      assert EmailsOf(es)[..|es| - 1] == EmailsOf(init);
      Put(BuildMap(init), es[|es| - 1])
  }

  /** The last entry of `es` with the given email. */
  function LastWith(es: seq<Entry>, email: string): (e: Entry)
    requires email in EmailsOf(es)
    ensures e.email == email
  {
    var n := |es| - 1;
    if es[n].email == email then es[n]
    else
      assert EmailsOf(es) == EmailsOf(es[..n]) + [es[n].email];
      LastWith(es[..n], email)
  }

  /** `LastWith` picks an entry of `es` after which no entry has that email. */
  lemma {:induction false} LastWithIsLast(es: seq<Entry>, email: string)
    requires email in EmailsOf(es)
    ensures exists i | 0 <= i < |es| :: es[i] == LastWith(es, email) && forall j | i < j < |es| :: es[j].email != email
  {
    var n := |es| - 1;
    if es[n].email != email {
      var init := es[..n];
      assert EmailsOf(es) == EmailsOf(init) + [es[n].email];
      LastWithIsLast(init, email);
      var i :| 0 <= i < |init| && init[i] == LastWith(init, email) && forall j | i < j < |init| :: init[j].email != email;
      assert es[i] == init[i];
    }
  }

  /** The reference de-duplication: one entry per email, emails in order of
      first occurrence, each carrying the last entry pushed for it. */
  function Dedupe(es: seq<Entry>): (r: seq<Entry>)
    ensures |r| == |Distinct(EmailsOf(es))|
    ensures forall k | 0 <= k < |r| :: r[k] == LastWith(es, Distinct(EmailsOf(es))[k])
  {
    var ks := Distinct(EmailsOf(es));
    seq(|ks|, i requires 0 <= i < |ks| => LastWith(es, ks[i]))
  }

  /** Each email appears once in the de-duplicated list, and exactly the
      emails of `es` appear. */
  lemma DedupeEmails(es: seq<Entry>)
    ensures EmailsOf(Dedupe(es)) == Distinct(EmailsOf(es))
    ensures NoDups(EmailsOf(Dedupe(es)))
    ensures forall x :: x in EmailsOf(Dedupe(es)) <==> x in EmailsOf(es)
  {
  }

  lemma {:induction false} DistinctSnoc(s: seq<string>, x: string)
    ensures Distinct(s + [x]) == if x in Distinct(s) then Distinct(s) else Distinct(s) + [x]
  {
    assert (s + [x])[..|s|] == s;
  }

  lemma LastWithSnoc(es: seq<Entry>, e: Entry, email: string)
    requires email in EmailsOf(es + [e])
    ensures email != e.email ==> email in EmailsOf(es)
    ensures LastWith(es + [e], email) == if email == e.email then e else LastWith(es, email)
  {
    var all := es + [e];
    assert all[..|all| - 1] == es;
    assert EmailsOf(all) == EmailsOf(es) + [e.email];
  }

  lemma DedupeSnocKnown(es: seq<Entry>, e: Entry)
    requires e.email in EmailsOf(es)
    ensures Dedupe(es + [e]) == Put(Dedupe(es), e)
  {
    var all := es + [e];
    assert EmailsOf(all) == EmailsOf(es) + [e.email];
    DistinctSnoc(EmailsOf(es), e.email);
    var d0 := Dedupe(es);
    assert EmailsOf(d0) == Distinct(EmailsOf(es));
    assert |Dedupe(all)| == |d0| == |Put(d0, e)|;
    forall k | 0 <= k < |d0|
      ensures Dedupe(all)[k] == Put(d0, e)[k]
    {
      DedupeSnocKnownAt(es, e, k);
    }
  }

  lemma DedupeSnocKnownAt(es: seq<Entry>, e: Entry, k: nat)
    requires e.email in EmailsOf(es)
    requires k < |Distinct(EmailsOf(es))|
    ensures k < |Dedupe(es + [e])| && k < |Put(Dedupe(es), e)|
    ensures Dedupe(es + [e])[k] == Put(Dedupe(es), e)[k]
  {
    var all := es + [e];
    assert EmailsOf(all) == EmailsOf(es) + [e.email];
    DistinctSnoc(EmailsOf(es), e.email);
    var ks0 := Distinct(EmailsOf(es));
    var d0 := Dedupe(es);
    assert EmailsOf(d0) == ks0;
    assert e.email in EmailsOf(d0);
    assert Distinct(EmailsOf(all)) == ks0;
    LastWithSnoc(es, e, ks0[k]);
    assert Dedupe(all)[k] == LastWith(all, ks0[k]);
    assert d0[k] == LastWith(es, ks0[k]) && d0[k].email == ks0[k];
    assert Put(d0, e)[k] == if d0[k].email == e.email then e else d0[k];
  }

  lemma DedupeSnocNew(es: seq<Entry>, e: Entry)
    requires e.email !in EmailsOf(es)
    ensures Dedupe(es + [e]) == Dedupe(es) + [e]
  {
    var all := es + [e];
    assert EmailsOf(all) == EmailsOf(es) + [e.email];
    DistinctSnoc(EmailsOf(es), e.email);
    var ks0 := Distinct(EmailsOf(es));
    var d := Dedupe(all);
    forall k | 0 <= k < |ks0|
      ensures d[k] == Dedupe(es)[k]
    {
      LastWithSnoc(es, e, ks0[k]);
    }
    LastWithSnoc(es, e, e.email);
  }

  /** Building the `Map` yields exactly the reference de-duplication. */
  lemma {:induction false} MapIsDedupe(es: seq<Entry>)
    ensures BuildMap(es) == Dedupe(es)
    decreases |es|
  {
    if |es| > 0 {
      var init := es[..|es| - 1];
      var e := es[|es| - 1];
      assert es == init + [e];
      MapIsDedupe(init);
      if e.email in EmailsOf(init) {
        DedupeSnocKnown(init, e);
      } else {
        DedupeSnocNew(init, e);
      }
    }
  }

  // ----------------------------------------------------------- counters

  lemma WritesToSingle(w: FlagWrite, id: UserId)
    ensures WritesTo([w], id) == if w.userId == id then 1 else 0
  {
    var t := Targets([w]);
    assert t == [w.userId] && t[1..] == [];
    assert Occurrences(t, id) == (if w.userId == id then 1 else 0) + Occurrences(t[1..], id);
  }

  /** Writes aimed at users `k..` of the snapshot. */
  function WriteSum(log: seq<FlagWrite>, ps: seq<Profile>, k: nat): nat
    decreases |ps| - k
  {
    if k >= |ps| then 0 else WritesTo(log, ps[k].id) + WriteSum(log, ps, k + 1)
  }

  /** Users `k..` of the snapshot that carry `id`. */
  function IdCount(ps: seq<Profile>, id: UserId, k: nat): nat
    decreases |ps| - k
  {
    if k >= |ps| then 0 else (if ps[k].id == id then 1 else 0) + IdCount(ps, id, k + 1)
  }

  lemma {:induction false} IdCountUnique(ps: seq<Profile>, id: UserId, k: nat)
    requires UniqueIds(ps)
    ensures IdCount(ps, id, k) == if exists i | k <= i < |ps| :: ps[i].id == id then 1 else 0
    decreases |ps| - k
  {
    if k < |ps| {
      IdCountUnique(ps, id, k + 1);
      if ps[k].id == id {
        assert forall i | k + 1 <= i < |ps| :: ps[i].id != id;
      }
    }
  }

  lemma {:induction false} WriteSumSnoc(log: seq<FlagWrite>, w: FlagWrite, ps: seq<Profile>, k: nat)
    ensures WriteSum(log + [w], ps, k) == WriteSum(log, ps, k) + IdCount(ps, w.userId, k)
    decreases |ps| - k
  {
    if k < |ps| {
      WriteSumSnoc(log, w, ps, k + 1);
      WritesToConcat(log, [w], ps[k].id);
      WritesToSingle(w, ps[k].id);
    }
  }

  /** Every write of `log` is aimed at some user of the snapshot. */
  predicate TargetsKnown(log: seq<FlagWrite>, ps: seq<Profile>) {
    forall w | w in log :: exists i | 0 <= i < |ps| :: ps[i].id == w.userId
  }

  /** When ids are unique and every write hits a known user, the per-user
      write counts add up to the length of the log. */
  lemma {:induction false} WriteSumIsLength(log: seq<FlagWrite>, ps: seq<Profile>)
    requires UniqueIds(ps) && TargetsKnown(log, ps)
    ensures WriteSum(log, ps, 0) == |log|
    decreases |log|
  {
    if |log| == 0 {
      WriteSumEmpty(ps, 0);
    } else {
      var init := log[..|log| - 1];
      var w := log[|log| - 1];
      assert log == init + [w];
      assert w in log;
      WriteSumIsLength(init, ps);
      WriteSumSnoc(init, w, ps, 0);
      IdCountUnique(ps, w.userId, 0);
    }
  }

  lemma {:induction false} WriteSumEmpty(ps: seq<Profile>, k: nat)
    ensures WriteSum([], ps, k) == 0
    decreases |ps| - k
  {
    if k < |ps| {
      WriteSumEmpty(ps, k + 1);
      assert Targets([]) == [];
    }
  }

  lemma IpTargetsKnown(ps: seq<Profile>, preds: seq<Prediction>)
    ensures TargetsKnown(IpLog(ps, preds), ps)
  {
    IpLogOverCauses(ps, preds, IpOrder(ps));
    forall w | w in IpLog(ps, preds)
      ensures exists i | 0 <= i < |ps| :: ps[i].id == w.userId
    {
      var p :| p in ps && p.id == w.userId && InGroup(p, w.cause.ip);
      var i :| 0 <= i < |ps| && ps[i] == p;
    }
  }

  lemma {:induction false} RowLogTargets(preds: seq<Prediction>, dist: Distance, a: Profile, xs: seq<Profile>)
    ensures forall w | w in RowLog(preds, dist, a, xs) :: w.userId == a.id || exists q | q in xs :: q.id == w.userId
  {
    if |xs| > 0 {
      RowLogTargets(preds, dist, a, xs[1..]);
      assert xs[0] in xs;
      assert forall q | q in xs[1..] :: q in xs;
    }
  }

  lemma {:induction false} PairsLogTargets(preds: seq<Prediction>, dist: Distance, cu: seq<Profile>)
    ensures forall w | w in PairsLog(preds, dist, cu) :: exists q | q in cu :: q.id == w.userId
  {
    if |cu| > 0 {
      RowLogTargets(preds, dist, cu[0], cu[1..]);
      PairsLogTargets(preds, dist, cu[1..]);
      assert cu[0] in cu;
      assert forall q | q in cu[1..] :: q in cu;
    }
  }

  lemma CoordTargetsKnown(ps: seq<Profile>, preds: seq<Prediction>, dist: Distance)
    ensures TargetsKnown(CoordLog(ps, preds, dist), ps)
  {
    PairsLogTargets(preds, dist, CoordUsers(ps));
    forall w | w in CoordLog(ps, preds, dist)
      ensures exists i | 0 <= i < |ps| :: ps[i].id == w.userId
    {
      var q :| q in CoordUsers(ps) && q.id == w.userId;
      var i :| 0 <= i < |ps| && ps[i] == q;
    }
  }

  lemma {:induction false} PairsLogEven(preds: seq<Prediction>, dist: Distance, cu: seq<Profile>)
    ensures |PairsLog(preds, dist, cu)| % 2 == 0
  {
    if |cu| > 0 {
      RowLogEven(preds, dist, cu[0], cu[1..]);
      PairsLogEven(preds, dist, cu[1..]);
    }
  }

  lemma {:induction false} RowLogEven(preds: seq<Prediction>, dist: Distance, a: Profile, xs: seq<Profile>)
    ensures |RowLog(preds, dist, a, xs)| % 2 == 0
  {
    if |xs| > 0 {
      RowLogEven(preds, dist, a, xs[1..]);
    }
  }

  // ------------------------------------------------ sums over the users

  /** Σ |IpFiring| over users `k..`. */
  ghost function IpHitSum(ps: seq<Profile>, preds: seq<Prediction>, k: nat): nat
    decreases |ps| - k
  {
    if k >= |ps| then 0 else |IpFiring(ps, preds, k)| + IpHitSum(ps, preds, k + 1)
  }

  /** Σ |NearPartners| over users `k..`. */
  ghost function NearHitSum(ps: seq<Profile>, preds: seq<Prediction>, dist: Distance, k: nat): nat
    decreases |ps| - k
  {
    if k >= |ps| then 0 else |NearPartners(ps, preds, dist, k)| + NearHitSum(ps, preds, dist, k + 1)
  }

  /** Σ of the rise of `timesCaught` over users `k..`. */
  function RiseSum(before: seq<User>, after: seq<User>, k: nat): int
    requires |before| == |after|
    decreases |before| - k
  {
    if k >= |before| then 0 else after[k].timesCaught - before[k].timesCaught + RiseSum(before, after, k + 1)
  }

  lemma {:induction false} IpWriteSum(ps: seq<Profile>, preds: seq<Prediction>, k: nat)
    requires UniqueIds(ps)
    ensures WriteSum(IpLog(ps, preds), ps, k) == IpHitSum(ps, preds, k)
    decreases |ps| - k
  {
    if k < |ps| {
      IpWriteSum(ps, preds, k + 1);
      IpMultiplicity(ps, preds, k);
    }
  }

  lemma {:induction false} NearWriteSum(ps: seq<Profile>, preds: seq<Prediction>, dist: Distance, k: nat)
    requires UniqueIds(ps)
    ensures WriteSum(CoordLog(ps, preds, dist), ps, k) == NearHitSum(ps, preds, dist, k)
    decreases |ps| - k
  {
    if k < |ps| {
      NearWriteSum(ps, preds, dist, k + 1);
      CoordMultiplicity(ps, preds, dist, k);
    }
  }

  lemma {:induction false} ScanRise(users: seq<User>, preds: seq<Prediction>, dist: Distance, k: nat)
    requires UniqueUserIds(users)
    ensures var ps := Profiles(users);
            RiseSum(users, Scan(users, preds, dist), k) == IpHitSum(ps, preds, k) + NearHitSum(ps, preds, dist, k)
    decreases |users| - k
  {
    if k < |users| {
      ScanRise(users, preds, dist, k + 1);
      PassRise(users, preds, dist, k);
    }
  }

  /** The rise of one user's `timesCaught` over a pass. */
  lemma PassRise(users: seq<User>, preds: seq<Prediction>, dist: Distance, i: nat)
    requires UniqueUserIds(users) && i < |users|
    ensures var ps := Profiles(users);
            && |Scan(users, preds, dist)| == |users|
            && Scan(users, preds, dist)[i].timesCaught - users[i].timesCaught
               == |IpFiring(ps, preds, i)| + |NearPartners(ps, preds, dist, i)|
  {
    PassEffect(users, preds, dist, i);
  }

  /** The counters of one pass: `flagged.ip` is the number of same-IP
      firings summed over users, `flagged.coords` the number of near
      partners summed over users (twice the firing pairs, so even), and
      together they are the total rise of `timesCaught` in the store. */
  lemma PassCounts(users: seq<User>, preds: seq<Prediction>, dist: Distance)
    requires UniqueUserIds(users)
    ensures var ps := Profiles(users);
            && |IpLog(ps, preds)| == IpHitSum(ps, preds, 0)
            && |CoordLog(ps, preds, dist)| == NearHitSum(ps, preds, dist, 0)
            && |CoordLog(ps, preds, dist)| % 2 == 0
            && |IpLog(ps, preds)| + |CoordLog(ps, preds, dist)| == RiseSum(users, Scan(users, preds, dist), 0)
  {
    var ps := Profiles(users);
    assert UniqueIds(ps);
    IpTargetsKnown(ps, preds);
    CoordTargetsKnown(ps, preds, dist);
    WriteSumIsLength(IpLog(ps, preds), ps);
    WriteSumIsLength(CoordLog(ps, preds, dist), ps);
    IpWriteSum(ps, preds, 0);
    NearWriteSum(ps, preds, dist, 0);
    PairsLogEven(preds, dist, CoordUsers(ps));
    ScanRise(users, preds, dist, 0);
  }
}
