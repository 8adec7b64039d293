/** The same-IP rule against a declarative reference: in one pass, a user is
    written once for every match on which it predicted and on which two
    members of its IP group (itself included) named different teams,
    provided at least one other user shares its IP. */
module DetectorIp {
  import opened Common
  import opened Seqs
  import opened Models
  import opened Detector
  import opened DetectorStore

  // ------------------------------------------------------------ reference

  /** Some user with id `uid` signed up from `ip`. */
  predicate InGroupId(ps: seq<Profile>, uid: UserId, ip: string) {
    exists p | p in ps :: p.id == uid && InGroup(p, ip)
  }

  /** Two predictions on match `m` by members of group `ip` name different
      teams. */
  predicate SplitBucket(ps: seq<Profile>, preds: seq<Prediction>, ip: string, m: MatchId) {
    exists p, q | p in preds && q in preds ::
      && InGroupId(ps, p.userId, ip) && InGroupId(ps, q.userId, ip)
      && p.matchId == m && q.matchId == m && p.predictedTeam != q.predictedTeam
  }

  /** Some other user signed up from the same (present, non-empty) IP. */
  predicate SharesIp(ps: seq<Profile>, k: int)
    requires 0 <= k < |ps|
  {
    HasIp(ps[k]) && exists j | 0 <= j < |ps| && j != k :: InGroup(ps[j], ps[k].signupIP.value)
  }

  /** The matches for which the same-IP rule writes user `k`. */
  ghost function IpFiring(ps: seq<Profile>, preds: seq<Prediction>, k: int): set<MatchId>
    requires 0 <= k < |ps|
  {
    if SharesIp(ps, k) then
      set p | p in preds && p.userId == ps[k].id && SplitBucket(ps, preds, ps[k].signupIP.value, p.matchId) :: p.matchId
    else {}
  }

  // ------------------------------------------------------------- buckets

  /** A bucket fires exactly when two of its predictions name different
      teams; two such predictions are necessarily two entries. */
  lemma BucketFiresIff(b: seq<Prediction>)
    ensures BucketFires(b) <==> exists p, q | p in b && q in b :: p.predictedTeam != q.predictedTeam
  {
    var t := TeamsOf(b);
    if |t| > 1 {
      var t1 :| t1 in t;
      assert t == (t - {t1}) + {t1};
      var t2 :| t2 in t - {t1};
      var p :| p in b && p.predictedTeam == t1;
      var q :| q in b && q.predictedTeam == t2;
    }
    if p, q :| p in b && q in b && p.predictedTeam != q.predictedTeam {
      var i :| 0 <= i < |b| && b[i] == p;
      var j :| 0 <= j < |b| && b[j] == q;
      assert i != j;
      assert p.predictedTeam in t && q.predictedTeam in t;
      assert t == (t - {p.predictedTeam}) + {p.predictedTeam};
      assert q.predictedTeam in t - {p.predictedTeam};
    }
  }

  lemma BucketLogCount(ps: seq<Profile>, ip: string, b: seq<Prediction>, id: UserId)
    ensures WritesTo(BucketLog(ps, ip, b), id) == if BucketFires(b) && id in UserIdsOf(b) then 1 else 0
  {
    if BucketFires(b) {
      var ids := FlagIds(b);
      assert Targets(SameIpWrites(ps, ip, ids)) == ids;
      OccurrencesOfDistinctFree(ids, id);
    }
  }

  /** Bucket `m` of `gp` fires and holds a prediction by `id`. */
  predicate BucketHits(gp: seq<Prediction>, m: MatchId, id: UserId) {
    BucketFires(Bucket(gp, m)) && id in UserIdsOf(Bucket(gp, m))
  }

  ghost function BucketsHit(gp: seq<Prediction>, ms: seq<MatchId>, id: UserId): set<MatchId> {
    set m | m in ms && BucketHits(gp, m, id)
  }

  lemma {:induction false} GroupLogCount(ps: seq<Profile>, ip: string, gp: seq<Prediction>, ms: seq<MatchId>, id: UserId)
    requires NoDups(ms)
    ensures WritesTo(GroupLog(ps, ip, gp, ms), id) == |BucketsHit(gp, ms, id)|
  {
    if |ms| == 0 {
      assert BucketsHit(gp, ms, id) == {};
    } else {
      var rest := ms[1..];
      assert NoDups(rest);
      GroupLogCount(ps, ip, gp, rest, id);
      WritesToConcat(BucketLog(ps, ip, Bucket(gp, ms[0])), GroupLog(ps, ip, gp, rest), id);
      BucketLogCount(ps, ip, Bucket(gp, ms[0]), id);
      BucketsHitCons(gp, ms, id);
    }
  }

  /** Splitting off the first match of a duplicate-free list adds one hit
      exactly when that match is hit. */
  lemma BucketsHitCons(gp: seq<Prediction>, ms: seq<MatchId>, id: UserId)
    requires NoDups(ms) && |ms| > 0
    ensures |BucketsHit(gp, ms, id)| == (if BucketHits(gp, ms[0], id) then 1 else 0) + |BucketsHit(gp, ms[1..], id)|
  {
    var rest := ms[1..];
    var head: set<MatchId> := if BucketHits(gp, ms[0], id) then {ms[0]} else {};
    assert ms[0] !in rest by {
      forall k | 0 <= k < |rest|
        ensures rest[k] != ms[0]
      {
        assert rest[k] == ms[k + 1];
      }
    }
    assert BucketsHit(gp, ms, id) == head + BucketsHit(gp, rest, id);
    assert head !! BucketsHit(gp, rest, id);
  }

  // -------------------------------------------------------------- groups

  lemma {:induction false} GroupIdsNoDups(ps: seq<Profile>, ip: string)
    requires UniqueIds(ps)
    ensures NoDups(GroupIds(ps, ip))
  {
    if |ps| > 0 {
      var rest := ps[1..];
      assert UniqueIds(rest);
      GroupIdsNoDups(rest, ip);
      forall k | 0 <= k < |rest|
        ensures rest[k].id != ps[0].id
      {
        assert rest[k] == ps[k + 1];
      }
      var r := GroupIds(rest, ip);
      var ids := GroupIds(ps, ip);
      assert ps[0].id !in r;
      if InGroup(ps[0], ip) {
        assert ids == [ps[0].id] + r;
        forall i, j | 0 <= i < j < |ids|
          ensures ids[i] != ids[j]
        {
          assert ids[j] == r[j - 1];
          if i > 0 {
            assert ids[i] == r[i - 1];
          }
        }
      } else {
        assert ids == r;
      }
    }
  }

  lemma GroupIdsMember(ps: seq<Profile>, ip: string, uid: UserId)
    ensures uid in GroupIds(ps, ip) <==> InGroupId(ps, uid, ip)
  {
    if InGroupId(ps, uid, ip) {
      var p :| p in ps && p.id == uid && InGroup(p, ip);
      var k :| 0 <= k < |ps| && ps[k] == p;
    }
  }

  /** The group of user `k` has at least two ids exactly when another user
      shares its IP. */
  lemma GroupSize(ps: seq<Profile>, k: int)
    requires UniqueIds(ps) && 0 <= k < |ps| && HasIp(ps[k])
    ensures |GroupIds(ps, ps[k].signupIP.value)| >= 2 <==> SharesIp(ps, k)
  {
    var ip := ps[k].signupIP.value;
    var ids := GroupIds(ps, ip);
    GroupIdsNoDups(ps, ip);
    if |ids| >= 2 {
      var other := if ids[0] != ps[k].id then ids[0] else ids[1];
      assert other in ids && other != ps[k].id;
      var j :| 0 <= j < |ps| && ps[j].id == other && InGroup(ps[j], ip);
      assert j != k;
    }
    if SharesIp(ps, k) {
      var j :| 0 <= j < |ps| && j != k && InGroup(ps[j], ip);
      assert ps[j].id != ps[k].id;
      assert ps[j].id in ids && ps[k].id in ids;
    }
  }

  /** A user outside group `ip` gets no write from that group. */
  lemma OutsideGroupUnwritten(ps: seq<Profile>, preds: seq<Prediction>, ip: string, id: UserId)
    requires id !in GroupIds(ps, ip)
    ensures WritesTo(IpGroupLog(ps, preds, ip), id) == 0
  {
    var ids := GroupIds(ps, ip);
    if |ids| >= 2 {
      var gp := PredictionsOf(preds, ids);
      var ms := MatchOrder(gp);
      GroupLogCount(ps, ip, gp, ms, id);
      forall m | m in ms
        ensures id !in UserIdsOf(Bucket(gp, m))
      {
        var b := Bucket(gp, m);
        forall i | 0 <= i < |b|
          ensures UserIdsOf(b)[i] != id
        {
          assert b[i] in gp;
        }
      }
      assert BucketsHit(gp, ms, id) == {};
    }
  }

  /** A match for which user `k`'s group log writes it is a reference match. */
  lemma HitIsFiring(ps: seq<Profile>, preds: seq<Prediction>, k: int, m: MatchId)
    requires UniqueIds(ps) && 0 <= k < |ps| && SharesIp(ps, k)
    requires var gp := PredictionsOf(preds, GroupIds(ps, ps[k].signupIP.value));
             m in BucketsHit(gp, MatchOrder(gp), ps[k].id)
    ensures m in IpFiring(ps, preds, k)
  {
    var id := ps[k].id;
    var ip := ps[k].signupIP.value;
    var ids := GroupIds(ps, ip);
    var gp := PredictionsOf(preds, ids);
    var b := Bucket(gp, m);
    var i :| 0 <= i < |b| && UserIdsOf(b)[i] == id;
    assert b[i] in b;
    BucketFiresIff(b);
    var p, q :| p in b && q in b && p.predictedTeam != q.predictedTeam;
    GroupIdsMember(ps, ip, p.userId);
    GroupIdsMember(ps, ip, q.userId);
    assert SplitBucket(ps, preds, ip, m);
    assert b[i] in preds && b[i].userId == id && b[i].matchId == m;
  }

  /** A prediction `r` by a member of `ids`, on a match where two members
      named different teams, lands in a firing bucket of the group. */
  lemma SplitIsHit(preds: seq<Prediction>, ids: seq<UserId>, r: Prediction, p: Prediction, q: Prediction)
    requires r in preds && p in preds && q in preds
    requires r.userId in ids && p.userId in ids && q.userId in ids
    requires p.matchId == r.matchId && q.matchId == r.matchId && p.predictedTeam != q.predictedTeam
    ensures var gp := PredictionsOf(preds, ids);
            r.matchId in MatchOrder(gp) && BucketHits(gp, r.matchId, r.userId)
  {
    var gp := PredictionsOf(preds, ids);
    var b := Bucket(gp, r.matchId);
    assert r in gp && r in b;
    assert p in b && q in b;
    BucketFiresIff(b);
    var i :| 0 <= i < |b| && b[i] == r;
    assert UserIdsOf(b)[i] == r.userId;
    var g :| 0 <= g < |gp| && gp[g] == r;
    assert MatchIdsOf(gp)[g] == r.matchId;
  }

  /** A reference match of user `k` is one its group log writes it for. */
  lemma FiringIsHit(ps: seq<Profile>, preds: seq<Prediction>, k: int, m: MatchId)
    requires UniqueIds(ps) && 0 <= k < |ps| && SharesIp(ps, k)
    requires m in IpFiring(ps, preds, k)
    ensures var gp := PredictionsOf(preds, GroupIds(ps, ps[k].signupIP.value));
            m in BucketsHit(gp, MatchOrder(gp), ps[k].id)
  {
    var ip := ps[k].signupIP.value;
    var ids := GroupIds(ps, ip);
    assert ps[k].id in ids;
    var r :| r in preds && r.userId == ps[k].id && SplitBucket(ps, preds, ip, r.matchId) && r.matchId == m;
    var p, q :| p in preds && q in preds
      && InGroupId(ps, p.userId, ip) && InGroupId(ps, q.userId, ip)
      && p.matchId == m && q.matchId == m && p.predictedTeam != q.predictedTeam;
    GroupIdsMember(ps, ip, p.userId);
    GroupIdsMember(ps, ip, q.userId);
    SplitIsHit(preds, ids, r, p, q);
  }

  /** Inside its own group, the matches a user is written for are exactly
      the reference ones. */
  lemma BucketsHitIsReference(ps: seq<Profile>, preds: seq<Prediction>, k: int)
    requires UniqueIds(ps) && 0 <= k < |ps| && SharesIp(ps, k)
    ensures var ip := ps[k].signupIP.value;
            var gp := PredictionsOf(preds, GroupIds(ps, ip));
            BucketsHit(gp, MatchOrder(gp), ps[k].id) == IpFiring(ps, preds, k)
  {
    var gp := PredictionsOf(preds, GroupIds(ps, ps[k].signupIP.value));
    forall m | m in BucketsHit(gp, MatchOrder(gp), ps[k].id)
      ensures m in IpFiring(ps, preds, k)
    {
      HitIsFiring(ps, preds, k, m);
    }
    forall m | m in IpFiring(ps, preds, k)
      ensures m in BucketsHit(gp, MatchOrder(gp), ps[k].id)
    {
      FiringIsHit(ps, preds, k, m);
    }
  }

  lemma {:induction false} IpLogOverCount(ps: seq<Profile>, preds: seq<Prediction>, ips: seq<string>, k: int)
    requires UniqueIds(ps) && 0 <= k < |ps| && NoDups(ips)
    ensures WritesTo(IpLogOver(ps, preds, ips), ps[k].id)
            == if HasIp(ps[k]) && ps[k].signupIP.value in ips
               then WritesTo(IpGroupLog(ps, preds, ps[k].signupIP.value), ps[k].id)
               else 0
  {
    if |ips| > 0 {
      var rest := ips[1..];
      assert NoDups(rest);
      IpLogOverCount(ps, preds, rest, k);
      WritesToConcat(IpGroupLog(ps, preds, ips[0]), IpLogOver(ps, preds, rest), ps[k].id);
      if !(HasIp(ps[k]) && ps[k].signupIP.value == ips[0]) {
        OutsideGroupUnwritten(ps, preds, ips[0], ps[k].id);
      } else {
        assert ips[0] !in rest;
      }
    }
  }

  // -------------------------------------------------------------- theorem

  /** The same-IP rule writes user `k` exactly once per match of
      `IpFiring`: once per (user, firing bucket), not once per pass. */
  lemma IpMultiplicity(ps: seq<Profile>, preds: seq<Prediction>, k: int)
    requires UniqueIds(ps) && 0 <= k < |ps|
    ensures WritesTo(IpLog(ps, preds), ps[k].id) == |IpFiring(ps, preds, k)|
  {
    IpLogOverCount(ps, preds, IpOrder(ps), k);
    if HasIp(ps[k]) {
      GroupSize(ps, k);
      var ip := ps[k].signupIP.value;
      var ids := GroupIds(ps, ip);
      if |ids| >= 2 {
        var gp := PredictionsOf(preds, ids);
        GroupLogCount(ps, ip, gp, MatchOrder(gp), ps[k].id);
        BucketsHitIsReference(ps, preds, k);
      }
    }
  }

  /** A user without a (non-empty) signup IP is never written by the
      same-IP rule. */
  lemma NoIpNoWrite(ps: seq<Profile>, preds: seq<Prediction>, k: int)
    requires UniqueIds(ps) && 0 <= k < |ps| && !HasIp(ps[k])
    ensures WritesTo(IpLog(ps, preds), ps[k].id) == 0
  {
    IpMultiplicity(ps, preds, k);
  }
}
