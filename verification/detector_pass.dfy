/** One complete detector pass over the user store: the final state of every
    user in terms of the two declarative references, which reason wins, and
    what a second pass over the result does. */
module DetectorPass {
  import opened Common
  import opened Seqs
  import opened Models
  import opened Detector
  import opened DetectorStore
  import opened DetectorIp
  import opened DetectorCoords

  // --------------------------------------------------------------- causes

  lemma {:induction false} LastCauseConcat(a: seq<FlagWrite>, b: seq<FlagWrite>, id: UserId)
    ensures LastCauseTo(a + b, id) == if id in Targets(b) then LastCauseTo(b, id) else LastCauseTo(a, id)
    decreases |b|
  {
    if |b| == 0 {
      assert a + b == a;
    } else {
      var init := b[..|b| - 1];
      assert (a + b)[..|a + b| - 1] == a + init;
      assert Targets(b) == Targets(init) + [b[|b| - 1].userId];
      LastCauseConcat(a, init, id);
    }
  }

  lemma {:induction false} RowLogNearby(preds: seq<Prediction>, dist: Distance, a: Profile, xs: seq<Profile>)
    ensures forall w | w in RowLog(preds, dist, a, xs) :: w.cause.Nearby?
  {
    if |xs| > 0 {
      RowLogNearby(preds, dist, a, xs[1..]);
    }
  }

  lemma {:induction false} PairsLogNearby(preds: seq<Prediction>, dist: Distance, cu: seq<Profile>)
    ensures forall w | w in PairsLog(preds, dist, cu) :: w.cause.Nearby?
  {
    if |cu| > 0 {
      RowLogNearby(preds, dist, cu[0], cu[1..]);
      PairsLogNearby(preds, dist, cu[1..]);
    }
  }

  /** Every write of the same-IP rule names the IP its target signed up from. */
  lemma BucketLogCauses(ps: seq<Profile>, preds: seq<Prediction>, ip: string, m: MatchId)
    ensures var b := Bucket(PredictionsOf(preds, GroupIds(ps, ip)), m);
            forall w | w in BucketLog(ps, ip, b) :: w.cause == SameIp(ip) && InGroupId(ps, w.userId, ip)
  {
    var ids := GroupIds(ps, ip);
    var b := Bucket(PredictionsOf(preds, ids), m);
    forall w | w in BucketLog(ps, ip, b)
      ensures w.cause == SameIp(ip) && InGroupId(ps, w.userId, ip)
    {
      var ws := SameIpWrites(ps, ip, FlagIds(b));
      var t :| 0 <= t < |ws| && ws[t] == w;
      assert w.userId in FlagIds(b);
      var i :| 0 <= i < |b| && UserIdsOf(b)[i] == w.userId;
      assert b[i] in b;
      GroupIdsMember(ps, ip, w.userId);
    }
  }

  lemma {:induction false} GroupLogCauses(ps: seq<Profile>, preds: seq<Prediction>, ip: string, ms: seq<MatchId>)
    ensures var gp := PredictionsOf(preds, GroupIds(ps, ip));
            forall w | w in GroupLog(ps, ip, gp, ms) :: w.cause == SameIp(ip) && InGroupId(ps, w.userId, ip)
  {
    if |ms| > 0 {
      BucketLogCauses(ps, preds, ip, ms[0]);
      GroupLogCauses(ps, preds, ip, ms[1..]);
    }
  }

  lemma {:induction false} IpLogOverCauses(ps: seq<Profile>, preds: seq<Prediction>, ips: seq<string>)
    ensures forall w | w in IpLogOver(ps, preds, ips) :: w.cause.SameIp? && InGroupId(ps, w.userId, w.cause.ip)
  {
    if |ips| > 0 {
      var gp := PredictionsOf(preds, GroupIds(ps, ips[0]));
      GroupLogCauses(ps, preds, ips[0], MatchOrder(gp));
      IpLogOverCauses(ps, preds, ips[1..]);
    }
  }

  // ------------------------------------------------------------- the pass

  /** The number of times one pass writes user `k`. */
  ghost function Hits(ps: seq<Profile>, preds: seq<Prediction>, dist: Distance, k: int): nat
    requires 0 <= k < |ps|
  {
    |IpFiring(ps, preds, k)| + |NearPartners(ps, preds, dist, k)|
  }

  lemma PassWrites(ps: seq<Profile>, preds: seq<Prediction>, dist: Distance, k: int)
    requires UniqueIds(ps) && 0 <= k < |ps|
    ensures WritesTo(PassLog(ps, preds, dist), ps[k].id) == Hits(ps, preds, dist, k)
  {
    WritesToConcat(IpLog(ps, preds), CoordLog(ps, preds, dist), ps[k].id);
    IpMultiplicity(ps, preds, k);
    CoordMultiplicity(ps, preds, dist, k);
  }

  /** The state of stored user `i` after one pass: `timesCaught` rises by one
      per firing match bucket and one per near partner; the user is flagged
      iff it was or some rule fired for it; a nearby reason overrides a
      same-IP one; a user no rule fires for is left exactly as it was. */
  lemma PassEffect(users: seq<User>, preds: seq<Prediction>, dist: Distance, i: int)
    requires UniqueUserIds(users) && 0 <= i < |users|
    ensures var ps := Profiles(users);
            var u := Scan(users, preds, dist)[i];
            var n := Hits(ps, preds, dist, i);
            && u.timesCaught == users[i].timesCaught + n
            && u.isFlagged == (users[i].isFlagged || n > 0)
            && (n == 0 ==> u == users[i])
            && (|NearPartners(ps, preds, dist, i)| > 0 ==>
                  exists c: Cause :: c.Nearby? && u.flagReason == Some(FlagReason(c)))
            && (|NearPartners(ps, preds, dist, i)| == 0 && |IpFiring(ps, preds, i)| > 0 ==>
                  u.flagReason == Some(FlagReason(SameIp(users[i].signupIP.value))))
            && u.(isFlagged := users[i].isFlagged, flagReason := users[i].flagReason,
                  timesCaught := users[i].timesCaught) == users[i]
  {
    var ps := Profiles(users);
    var id := users[i].id;
    var ipLog := IpLog(ps, preds);
    var coordLog := CoordLog(ps, preds, dist);
    var log := PassLog(ps, preds, dist);
    assert ps[i].id == id;
    ApplyEffect(users, log, i);
    PassWrites(ps, preds, dist, i);
    CoordMultiplicity(ps, preds, dist, i);
    IpMultiplicity(ps, preds, i);
    LastCauseConcat(ipLog, coordLog, id);
    OccurrencesPositive(Targets(coordLog), id);
    OccurrencesPositive(Targets(ipLog), id);
    if |NearPartners(ps, preds, dist, i)| > 0 {
      var c := LastCauseTo(coordLog, id).value;
      PairsLogNearby(preds, dist, CoordUsers(ps));
      var t :| 0 <= t < |coordLog| && coordLog[t] == FlagWrite(id, c, coordLog[t].email);
      assert coordLog[t] in coordLog;
      assert c.Nearby?;
    } else if |IpFiring(ps, preds, i)| > 0 {
      var c := LastCauseTo(ipLog, id).value;
      IpLogOverCauses(ps, preds, IpOrder(ps));
      var t :| 0 <= t < |ipLog| && ipLog[t] == FlagWrite(id, c, ipLog[t].email);
      assert ipLog[t] in ipLog;
      var p :| p in ps && p.id == id && InGroup(p, c.ip);
      var j :| 0 <= j < |ps| && ps[j] == p;
      assert j == i;
    }
  }

  /** A bucket flags every member of the group who predicted on its match,
      including one who agrees with another member. */
  lemma BucketFlagsEveryPredictor(users: seq<User>, preds: seq<Prediction>, dist: Distance, i: int, r: Prediction)
    requires UniqueUserIds(users) && 0 <= i < |users|
    requires SharesIp(Profiles(users), i)
    requires r in preds && r.userId == users[i].id
    requires SplitBucket(Profiles(users), preds, users[i].signupIP.value, r.matchId)
    ensures Scan(users, preds, dist)[i].isFlagged
    ensures Scan(users, preds, dist)[i].timesCaught > users[i].timesCaught
  {
    var ps := Profiles(users);
    assert r.matchId in IpFiring(ps, preds, i);
    PassEffect(users, preds, dist, i);
  }

  /** Both users of a near pair with opposite predictions are flagged. */
  lemma NearPairFlagsBoth(users: seq<User>, preds: seq<Prediction>, dist: Distance, i: int, j: int)
    requires UniqueUserIds(users) && 0 <= i < j < |users|
    requires HasCoords(Profiles(users)[i]) && HasCoords(Profiles(users)[j])
    requires dist(CoordsOf(Profiles(users)[i]), CoordsOf(Profiles(users)[j])) <= 50.0
    requires Opposed(preds, users[i].id, users[j].id)
    ensures Scan(users, preds, dist)[i].isFlagged && Scan(users, preds, dist)[j].isFlagged
  {
    var ps := Profiles(users);
    assert NearPair(ps, preds, dist, j, i) && NearPair(ps, preds, dist, i, j);
    assert ps[j].id in NearPartners(ps, preds, dist, i);
    assert ps[i].id in NearPartners(ps, preds, dist, j);
    PassEffect(users, preds, dist, i);
    PassEffect(users, preds, dist, j);
  }

  /** A user who is not flagged after a pass had no rule fire for it. */
  lemma NoFalsePositive(users: seq<User>, preds: seq<Prediction>, dist: Distance, i: int)
    requires UniqueUserIds(users) && 0 <= i < |users|
    requires !users[i].isFlagged && Scan(users, preds, dist)[i].isFlagged
    ensures IpFiring(Profiles(users), preds, i) != {} || NearPartners(Profiles(users), preds, dist, i) != {}
  {
    PassEffect(users, preds, dist, i);
  }

  /** A pass reads nothing it writes, so a second pass over its result
      repeats the same writes: every count is charged again. */
  lemma PassTwice(users: seq<User>, preds: seq<Prediction>, dist: Distance, i: int)
    requires UniqueUserIds(users) && 0 <= i < |users|
    ensures var once := Scan(users, preds, dist);
            var twice := Scan(once, preds, dist);
            && twice == Apply(users, PassLog(Profiles(users), preds, dist) + PassLog(Profiles(users), preds, dist))
            && twice[i].timesCaught == users[i].timesCaught + 2 * Hits(Profiles(users), preds, dist, i)
  {
    var ps := Profiles(users);
    var log := PassLog(ps, preds, dist);
    SecondPassSameLog(users, preds, dist);
    ApplyEffect(users, log + log, i);
    WritesToConcat(log, log, users[i].id);
    assert ps[i].id == users[i].id;
    PassWrites(ps, preds, dist, i);
  }

  /** The second pass sees the same profiles, so it makes the same writes. */
  lemma SecondPassSameLog(users: seq<User>, preds: seq<Prediction>, dist: Distance)
    ensures var log := PassLog(Profiles(users), preds, dist);
            Scan(Scan(users, preds, dist), preds, dist) == Apply(users, log + log)
  {
    var ps := Profiles(users);
    var log := PassLog(ps, preds, dist);
    var once := Apply(users, log);
    ApplyKeepsProfiles(users, log);
    assert Profiles(once) == ps;
    ApplyConcat(users, log, log);
  }
}
