/** The fire-and-forget copy of the detector (`checkSuspiciousActivity`),
    written as the source writes it: loops over IP groups, match buckets and
    user ids, then the nested pair loops with the early exit on the first
    opposite prediction.  Each `findByIdAndUpdate` is one `ApplyWrite`; the
    loops are proved to issue exactly the writes of `PassLog`, in order. */
module DetectorLib {
  import opened Common
  import opened Seqs
  import opened Models
  import opened Detector
  import opened DetectorStore

  lemma ApplySnoc(users: seq<User>, log: seq<FlagWrite>, w: FlagWrite)
    ensures Apply(users, log + [w]) == ApplyWrite(Apply(users, log), w)
  {
    assert (log + [w])[..|log|] == log;
  }

  /** `for (const userId of userIdsToFlag) await User.findByIdAndUpdate(...)`. */
  method FlagSameIp(store: seq<User>, ps: seq<Profile>, ip: string, ids: seq<UserId>) returns (r: seq<User>)
    ensures r == Apply(store, SameIpWrites(ps, ip, ids))
  {
    r := store;
    var z := 0;
    while z < |ids|
      invariant 0 <= z <= |ids|
      invariant r == Apply(store, SameIpWrites(ps, ip, ids[..z]))
    {
      var w := FlagWrite(ids[z], SameIp(ip), EmailOf(ps, ids[z]));
      assert SameIpWrites(ps, ip, ids[..z + 1]) == SameIpWrites(ps, ip, ids[..z]) + [w];
      ApplySnoc(store, SameIpWrites(ps, ip, ids[..z]), w);
      r := ApplyWrite(r, w);
      z := z + 1;
    }
    assert ids[..z] == ids;
  }

  /** One bucket of `buckets`: flag its predictors when both teams occur. */
  method FlagBucket(store: seq<User>, ps: seq<Profile>, ip: string, b: seq<Prediction>) returns (r: seq<User>)
    ensures r == Apply(store, BucketLog(ps, ip, b))
  {
    r := store;
    if BucketFires(b) {
      r := FlagSameIp(r, ps, ip, FlagIds(b));
    }
  }

  lemma GroupLogUnfold(ps: seq<Profile>, ip: string, gp: seq<Prediction>, ms: seq<MatchId>, y: int)
    requires 0 <= y < |ms|
    ensures GroupLog(ps, ip, gp, ms[y..]) == BucketLog(ps, ip, Bucket(gp, ms[y])) + GroupLog(ps, ip, gp, ms[y + 1..])
  {
    assert ms[y..][1..] == ms[y + 1..];
  }

  lemma GroupStep(r: seq<User>, ps: seq<Profile>, ip: string, gp: seq<Prediction>, ms: seq<MatchId>, y: int)
    requires 0 <= y < |ms|
    ensures Apply(Apply(r, BucketLog(ps, ip, Bucket(gp, ms[y]))), GroupLog(ps, ip, gp, ms[y + 1..]))
            == Apply(r, GroupLog(ps, ip, gp, ms[y..]))
  {
    GroupLogUnfold(ps, ip, gp, ms, y);
    ApplyConcat(r, BucketLog(ps, ip, Bucket(gp, ms[y])), GroupLog(ps, ip, gp, ms[y + 1..]));
  }

  /** The body of `for (const ip in ipGroups)`: skip groups of fewer than two
      users, bucket the group's predictions by match and flag every firing
      bucket. */
  method FlagGroup(store: seq<User>, ps: seq<Profile>, preds: seq<Prediction>, ip: string) returns (r: seq<User>)
    ensures r == Apply(store, IpGroupLog(ps, preds, ip))
  {
    r := store;
    var ids := GroupIds(ps, ip);
    if |ids| < 2 {
      return;
    }
    var gp := PredictionsOf(preds, ids);
    var ms := MatchOrder(gp);
    var y := 0;
    while y < |ms|
      invariant 0 <= y <= |ms|
      invariant Apply(r, GroupLog(ps, ip, gp, ms[y..])) == Apply(store, GroupLog(ps, ip, gp, ms))
    {
      GroupStep(r, ps, ip, gp, ms, y);
      r := FlagBucket(r, ps, ip, Bucket(gp, ms[y]));
      y := y + 1;
    }
    assert ms[y..] == [];
  }

  lemma IpLogOverUnfold(ps: seq<Profile>, preds: seq<Prediction>, ips: seq<string>, x: int)
    requires 0 <= x < |ips|
    ensures IpLogOver(ps, preds, ips[x..]) == IpGroupLog(ps, preds, ips[x]) + IpLogOver(ps, preds, ips[x + 1..])
  {
    assert ips[x..][1..] == ips[x + 1..];
  }

  lemma IpStep(r: seq<User>, ps: seq<Profile>, preds: seq<Prediction>, ips: seq<string>, x: int)
    requires 0 <= x < |ips|
    ensures Apply(Apply(r, IpGroupLog(ps, preds, ips[x])), IpLogOver(ps, preds, ips[x + 1..]))
            == Apply(r, IpLogOver(ps, preds, ips[x..]))
  {
    IpLogOverUnfold(ps, preds, ips, x);
    ApplyConcat(r, IpGroupLog(ps, preds, ips[x]), IpLogOver(ps, preds, ips[x + 1..]));
  }

  /** The same-IP half of the pass: every IP group, in `for...in` key order. */
  method FlagIpGroups(store: seq<User>, ps: seq<Profile>, preds: seq<Prediction>) returns (r: seq<User>)
    ensures r == Apply(store, IpLog(ps, preds))
  {
    r := store;
    var ips := IpOrder(ps);
    var x := 0;
    while x < |ips|
      invariant 0 <= x <= |ips|
      invariant Apply(r, IpLogOver(ps, preds, ips[x..])) == Apply(store, IpLogOver(ps, preds, ips))
    {
      IpStep(r, ps, preds, ips, x);
      r := FlagGroup(r, ps, preds, ips[x]);
      x := x + 1;
    }
    assert ips[x..] == [];
  }

  /** `user2Predictions.find(p2 => same match && other team)`. */
  function FindOpposite(p1: Prediction, ys: seq<Prediction>): (r: Option<Prediction>)
    ensures r.Some? ==> r.value in ys && r.value.matchId == p1.matchId && r.value.predictedTeam != p1.predictedTeam
    ensures r.None? ==> forall q | q in ys :: !(q.matchId == p1.matchId && q.predictedTeam != p1.predictedTeam)
  {
    if |ys| == 0 then None
    else if ys[0].matchId == p1.matchId && ys[0].predictedTeam != p1.predictedTeam then Some(ys[0])
    else
      var r := FindOpposite(p1, ys[1..]);
      assert ys == [ys[0]] + ys[1..];
      r
  }

  /** Scanning all of `a`'s predictions without finding one that `b`
      contradicts means the two are not opposed. */
  lemma ScanComplete(preds: seq<Prediction>, a: UserId, b: UserId)
    requires forall s | 0 <= s < |PredictionsOf(preds, [a])| ::
               FindOpposite(PredictionsOf(preds, [a])[s], PredictionsOf(preds, [b])).None?
    ensures !Opposed(preds, a, b)
  {
    var user1 := PredictionsOf(preds, [a]);
    var user2 := PredictionsOf(preds, [b]);
    forall p, q | p in preds && q in preds && p.userId == a && q.userId == b && p.matchId == q.matchId
      ensures p.predictedTeam == q.predictedTeam
    {
      assert p in user1 && q in user2;
      var s :| 0 <= s < |user1| && user1[s] == p;
      var found := FindOpposite(user1[s], user2);
    }
  }

  lemma ScanFound(preds: seq<Prediction>, a: UserId, b: UserId, p1: Prediction)
    requires p1 in PredictionsOf(preds, [a]) && FindOpposite(p1, PredictionsOf(preds, [b])).Some?
    ensures Opposed(preds, a, b)
  {
    var q := FindOpposite(p1, PredictionsOf(preds, [b])).value;
    assert p1 in preds && q in preds;
  }

  /** The inner `for (const p1 of user1Predictions)` with its `break`: stops
      at the first of `a`'s predictions that `b` contradicts. */
  method FindAnyOpposite(preds: seq<Prediction>, a: UserId, b: UserId) returns (found: bool)
    ensures found == Opposed(preds, a, b)
  {
    var user1 := PredictionsOf(preds, [a]);
    var user2 := PredictionsOf(preds, [b]);
    var t := 0;
    while t < |user1|
      invariant 0 <= t <= |user1|
      invariant forall s | 0 <= s < t :: FindOpposite(user1[s], user2).None?
    {
      var opposite := FindOpposite(user1[t], user2);
      if opposite.Some? {
        assert user1[t] in user1;
        ScanFound(preds, a, b, user1[t]);
        return true;
      }
      t := t + 1;
    }
    ScanComplete(preds, a, b);
    return false;
  }

  /** The body of the pair loop for users `a` and `b`: within 50 metres and
      with opposite predictions, flag both with the rounded distance. */
  method FlagPair(store: seq<User>, preds: seq<Prediction>, dist: Distance, a: Profile, b: Profile) returns (r: seq<User>)
    ensures r == Apply(store, PairLog(preds, dist, a, b))
  {
    r := store;
    var d := dist(CoordsOf(a), CoordsOf(b));
    if d <= 50.0 {
      var found := FindAnyOpposite(preds, a.id, b.id);
      if found {
        var c := Nearby(Round(d));
        var w1 := FlagWrite(a.id, c, a.email);
        var w2 := FlagWrite(b.id, c, b.email);
        assert PairLog(preds, dist, a, b) == [w1] + [w2];
        ApplySnoc(store, [w1], w2);
        assert Apply(store, [w1]) == ApplyWrite(store, w1) by {
          ApplySnoc(store, [], w1);
        }
        r := ApplyWrite(r, w1);
        r := ApplyWrite(r, w2);
      }
    }
  }

  lemma RowLogUnfold(preds: seq<Prediction>, dist: Distance, a: Profile, xs: seq<Profile>, j: int)
    requires 0 <= j < |xs|
    ensures RowLog(preds, dist, a, xs[j..]) == PairLog(preds, dist, a, xs[j]) + RowLog(preds, dist, a, xs[j + 1..])
  {
    assert xs[j..][0] == xs[j] && xs[j..][1..] == xs[j + 1..];
  }

  lemma RowStep(r: seq<User>, preds: seq<Prediction>, dist: Distance, a: Profile, xs: seq<Profile>, j: int)
    requires 0 <= j < |xs|
    ensures Apply(Apply(r, PairLog(preds, dist, a, xs[j])), RowLog(preds, dist, a, xs[j + 1..]))
            == Apply(r, RowLog(preds, dist, a, xs[j..]))
  {
    RowLogUnfold(preds, dist, a, xs, j);
    ApplyConcat(r, PairLog(preds, dist, a, xs[j]), RowLog(preds, dist, a, xs[j + 1..]));
  }

  /** `for (let j = i + 1; ...)`: user `a` against every later user `xs`. */
  method FlagRow(store: seq<User>, preds: seq<Prediction>, dist: Distance, a: Profile, xs: seq<Profile>) returns (r: seq<User>)
    ensures r == Apply(store, RowLog(preds, dist, a, xs))
  {
    r := store;
    var j := 0;
    while j < |xs|
      invariant 0 <= j <= |xs|
      invariant Apply(r, RowLog(preds, dist, a, xs[j..])) == Apply(store, RowLog(preds, dist, a, xs))
    {
      RowStep(r, preds, dist, a, xs, j);
      r := FlagPair(r, preds, dist, a, xs[j]);
      j := j + 1;
    }
    assert xs[j..] == [];
  }

  lemma PairsLogUnfold(preds: seq<Prediction>, dist: Distance, cu: seq<Profile>, i: int)
    requires 0 <= i < |cu|
    ensures PairsLog(preds, dist, cu[i..]) == RowLog(preds, dist, cu[i], cu[i + 1..]) + PairsLog(preds, dist, cu[i + 1..])
  {
    assert cu[i..][0] == cu[i] && cu[i..][1..] == cu[i + 1..];
  }

  lemma PairsStep(r: seq<User>, preds: seq<Prediction>, dist: Distance, cu: seq<Profile>, i: int)
    requires 0 <= i < |cu|
    ensures Apply(Apply(r, RowLog(preds, dist, cu[i], cu[i + 1..])), PairsLog(preds, dist, cu[i + 1..]))
            == Apply(r, PairsLog(preds, dist, cu[i..]))
  {
    PairsLogUnfold(preds, dist, cu, i);
    ApplyConcat(r, RowLog(preds, dist, cu[i], cu[i + 1..]), PairsLog(preds, dist, cu[i + 1..]));
  }

  /** The coordinate half of the pass: `for (let i = 0; ...)` over the users
      with coordinates. */
  method FlagNearPairs(store: seq<User>, ps: seq<Profile>, preds: seq<Prediction>, dist: Distance) returns (r: seq<User>)
    ensures r == Apply(store, CoordLog(ps, preds, dist))
  {
    r := store;
    var cu := CoordUsers(ps);
    var i := 0;
    while i < |cu|
      invariant 0 <= i <= |cu|
      invariant Apply(r, PairsLog(preds, dist, cu[i..])) == Apply(store, PairsLog(preds, dist, cu))
    {
      PairsStep(r, preds, dist, cu, i);
      r := FlagRow(r, preds, dist, cu[i], cu[i + 1..]);
      i := i + 1;
    }
    assert cu[i..] == [];
  }

  /** `checkSuspiciousActivity()`: one pass over the snapshot `users`.
      Building the IP groups throws before any update when a signup IP is an
      inherited object key; otherwise `failAt` is the index of the store
      update that rejects, if one does.  The `catch` swallows either error
      and the updates made before it stay; with no error the store ends as
      the reference pass leaves it. */
  method CheckSuspiciousActivity(users: seq<User>, preds: seq<Prediction>, dist: Distance, failAt: Option<nat>)
    returns (store: seq<User>)
    ensures GroupingThrows(Profiles(users)) ==> store == users
    ensures var log := PassLog(Profiles(users), preds, dist);
            !GroupingThrows(Profiles(users)) && failAt.Some? && failAt.value < |log| ==>
              store == Apply(users, log[..failAt.value])
    ensures var log := PassLog(Profiles(users), preds, dist);
            !GroupingThrows(Profiles(users)) && (failAt.None? || failAt.value >= |log|) ==>
              store == Scan(users, preds, dist)
  {
    var ps := Profiles(users);
    if GroupingThrows(ps) {
      return users;
    }
    var log := PassLog(ps, preds, dist);
    if failAt.Some? && failAt.value < |log| {
      return Apply(users, log[..failAt.value]);
    }
    store := FlagIpGroups(users, ps, preds);
    store := FlagNearPairs(store, ps, preds, dist);
    ApplyConcat(users, IpLog(ps, preds), CoordLog(ps, preds, dist));
  }
}
