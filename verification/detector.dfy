/** The suspicious-activity (multi-account) detector: one pass over a snapshot
    of all users and all predictions, with a same-IP rule and a nearby-signup
    rule.  This module holds the reference definition of the pass as an ordered
    log of flag writes, and what applying that log does to the user store.

    The pass reads a user only through `Profile` (id, email, signup IP and
    signup coordinates), so its decisions cannot depend on the three fields it
    writes (`isFlagged`, `flagReason`, `timesCaught`).  The great-circle
    distance is a parameter `dist`; only the `<= 50` comparison and its rounded
    value in the reason text matter here. */
module Detector {
  import opened Common
  import opened Seqs
  import opened Strings
  import opened Models

  // ------------------------------------------------------------ snapshot

  /** What the detector reads of a user record. */
  datatype Profile = Profile(id: UserId, email: string, signupIP: Option<string>, coords: Option<Coords>)

  function ProfileOf(u: User): Profile {
    Profile(u.id, u.email, u.signupIP, u.signupCoords)
  }

  function Profiles(users: seq<User>): (ps: seq<Profile>)
    ensures |ps| == |users|
    ensures forall i | 0 <= i < |users| :: ps[i] == ProfileOf(users[i])
  {
    seq(|users|, i requires 0 <= i < |users| => ProfileOf(users[i]))
  }

  predicate UniqueIds(ps: seq<Profile>) {
    forall i, j | 0 <= i < j < |ps| :: ps[i].id != ps[j].id
  }

  /** Great-circle distance in metres between two signup coordinates. */
  type Distance = (Coords, Coords) -> real

  const NearbyLimit: real := 50.0

  // ------------------------------------------------------------- writes

  /** Why a user is flagged: a shared signup IP, or a nearby signup at a
      distance of `meters` (rounded). */
  datatype Cause = SameIp(ip: string) | Nearby(meters: int)

  /** One `findByIdAndUpdate` of the pass: `$set isFlagged true, flagReason`
      and `$inc timesCaught 1` on `userId`.  `email` is the address the admin
      summary lists for this write. */
  datatype FlagWrite = FlagWrite(userId: UserId, cause: Cause, email: string)

  /** The `flagReason` text stored for a cause. */
  function FlagReason(c: Cause): string {
    match c
    case SameIp(ip) => "Same IP (" + ip + ") with opposite predictions on match"
    case Nearby(m) => "Nearby location (" + IntToString(m) + "m) with opposite predictions"
  }

  /** The shorter reason the admin summary shows. */
  function SummaryReason(c: Cause): string {
    match c
    case SameIp(ip) => "Same IP (" + ip + ")"
    case Nearby(m) => "Nearby (" + IntToString(m) + "m)"
  }

  /** `Math.round`: the nearest integer, halves rounded up. */
  function Round(x: real): (r: int)
    ensures r as real - 0.5 <= x < r as real + 0.5
  {
    (x + 0.5).Floor
  }

  function FlagUser(u: User, c: Cause): User {
    u.(isFlagged := true, flagReason := Some(FlagReason(c)), timesCaught := u.timesCaught + 1)
  }

  /** One flag write applied to every stored user with that id. */
  function ApplyWrite(users: seq<User>, w: FlagWrite): (r: seq<User>)
    ensures |r| == |users|
    ensures forall i | 0 <= i < |users| ::
              r[i] == if users[i].id == w.userId then FlagUser(users[i], w.cause) else users[i]
  {
    seq(|users|, i requires 0 <= i < |users| =>
      if users[i].id == w.userId then FlagUser(users[i], w.cause) else users[i])
  }

  /** The store after the writes of `log`, in order. */
  function Apply(users: seq<User>, log: seq<FlagWrite>): (r: seq<User>)
    ensures |r| == |users|
  {
    if |log| == 0 then users
    else ApplyWrite(Apply(users, log[..|log| - 1]), log[|log| - 1])
  }

  /** The user ids the writes of `log` are aimed at, in order. */
  function Targets(log: seq<FlagWrite>): (r: seq<UserId>)
    ensures |r| == |log|
    ensures forall i | 0 <= i < |log| :: r[i] == log[i].userId
  {
    seq(|log|, i requires 0 <= i < |log| => log[i].userId)
  }

  /** Number of writes of `log` aimed at `id`. */
  function WritesTo(log: seq<FlagWrite>, id: UserId): nat {
    Occurrences(Targets(log), id)
  }

  /** The cause of the last write of `log` aimed at `id`. */
  function LastCauseTo(log: seq<FlagWrite>, id: UserId): (r: Option<Cause>)
    ensures r.Some? <==> id in Targets(log)
    ensures r.Some? ==> exists i | 0 <= i < |log| :: log[i] == FlagWrite(id, r.value, log[i].email)
  {
    if |log| == 0 then None
    else if log[|log| - 1].userId == id then Some(log[|log| - 1].cause)
    else
      var init := log[..|log| - 1];
      assert Targets(log) == Targets(init) + [log[|log| - 1].userId];
      var r := LastCauseTo(init, id);
      assert r.Some? ==> exists i | 0 <= i < |init| :: init[i] == FlagWrite(id, r.value, init[i].email);
      r
  }

  /** What a log does to one user: each write adds one to `timesCaught`, and
      if there was any, the user is flagged with the reason of the last. */
  function Outcome(u: User, log: seq<FlagWrite>): User {
    var n := WritesTo(log, u.id);
    OccurrencesPositive(Targets(log), u.id);
    if n == 0 then u
    else u.(isFlagged := true,
            flagReason := Some(FlagReason(LastCauseTo(log, u.id).value)),
            timesCaught := u.timesCaught + n)
  }

  // ----------------------------------------------------- same-IP rule

  /** `if (user.signupIP)`: only a present, non-empty IP groups a user. */
  predicate HasIp(p: Profile) {
    p.signupIP.Some? && p.signupIP.value != ""
  }

  predicate InGroup(p: Profile, ip: string) {
    HasIp(p) && p.signupIP.value == ip
  }

  /** The keys every plain object inherits from `Object.prototype`.  Looking
      one up in `ipGroups` finds the inherited value instead of nothing, and
      calling `push` on that value throws a `TypeError`. */
  const InheritedKeys: set<string> :=
    {"constructor", "__proto__", "toString", "toLocaleString", "valueOf", "hasOwnProperty",
     "isPrototypeOf", "propertyIsEnumerable", "__defineGetter__", "__defineSetter__",
     "__lookupGetter__", "__lookupSetter__"}

  /** Building `ipGroups` throws: some user's signup IP is an inherited key.
      The throw comes before the pass's first store update. */
  predicate GroupingThrows(ps: seq<Profile>) {
    exists k | 0 <= k < |ps| :: HasIp(ps[k]) && ps[k].signupIP.value in InheritedKeys
  }

  /** The signup IPs of the users that have one, in user order. */
  function IpList(ps: seq<Profile>): (r: seq<string>)
    ensures forall k | 0 <= k < |ps| && HasIp(ps[k]) :: ps[k].signupIP.value in r
    ensures forall ip | ip in r :: exists k | 0 <= k < |ps| :: InGroup(ps[k], ip)
  {
    if |ps| == 0 then []
    else
      var rest := IpList(ps[1..]);
      assert forall k | 1 <= k < |ps| :: ps[k] == ps[1..][k - 1];
      (if HasIp(ps[0]) then [ps[0].signupIP.value] else []) + rest
  }

  /** An array index as JavaScript objects order their keys: the decimal
      text of an integer from 0 to 2^32 - 2 with no sign, space or leading
      zero.  So "2" and "10" are array indices; "02", "1.2.3.4" and
      "4294967295" are not. */
  predicate IsArrayIndex(s: string) {
    && |s| > 0 && AllDigits(s)
    && DecimalValue(s) < 0x1_0000_0000 - 1
    && NatToString(DecimalValue(s)) == s
  }

  predicate IsNamedKey(s: string) {
    !IsArrayIndex(s)
  }

  function IndexValue(s: string): nat {
    if AllDigits(s) then DecimalValue(s) else 0
  }

  predicate IndexLe(a: string, b: string) {
    IndexValue(a) <= IndexValue(b)
  }

  /** Two array indices with the same value are the same key. */
  lemma IndexValueInjective(a: string, b: string)
    requires IsArrayIndex(a) && IsArrayIndex(b) && IndexValue(a) == IndexValue(b)
    ensures a == b
  {
  }

  /** The `for...in` order of an object whose keys were added in the order
      of `keys`: its array-index keys first, in ascending numeric order, then
      its other keys in the order they were added. */
  function KeyOrder(keys: seq<string>): (r: seq<string>)
    requires NoDups(keys)
    ensures forall x :: x in r <==> x in keys
    ensures NoDups(r)
    ensures forall i, j | 0 <= i < j < |r| && IsArrayIndex(r[j]) ::
              IsArrayIndex(r[i]) && IndexValue(r[i]) < IndexValue(r[j])
    ensures |r| == |keys|
    ensures Filter(r, IsNamedKey) == Filter(keys, IsNamedKey)
  {
    IndexLeTotal();
    FilterComplement(keys, IsArrayIndex, IsNamedKey);
    var idx := Filter(keys, IsArrayIndex);
    var named := Filter(keys, IsNamedKey);
    var sorted := Sort(idx, IndexLe);
    FilterNoDups(keys, IsArrayIndex);
    FilterNoDups(keys, IsNamedKey);
    SortedIndices(idx, sorted);
    IndicesThenNamed(sorted, named);
    NamedAfterIndices(sorted, named);
    sorted + named
  }

  /** Putting array indices in front of a list of named keys leaves the
      named keys, in their order. */
  lemma NamedAfterIndices(sorted: seq<string>, named: seq<string>)
    requires forall x | x in sorted :: IsArrayIndex(x)
    requires forall x | x in named :: !IsArrayIndex(x)
    ensures Filter(sorted + named, IsNamedKey) == named
  {
    FilterAppend(sorted, named, IsNamedKey);
    FilterAllOrNone(sorted, IsNamedKey);
    FilterAllOrNone(named, IsNamedKey);
  }

  /** The keys of `ipGroups` in `for...in` order.  The keys were added in
      order of the first user with each IP.  Dotted IPv4 and IPv6 texts are
      never array indices, but the signup IP is whatever text the client
      sent, so an IP such as "2" is visited before one such as "10" and
      before every dotted one. */
  function IpOrder(ps: seq<Profile>): (r: seq<string>)
    ensures forall x :: x in r <==> x in IpList(ps)
    ensures NoDups(r)
    ensures forall i, j | 0 <= i < j < |r| && IsArrayIndex(r[j]) ::
              IsArrayIndex(r[i]) && IndexValue(r[i]) < IndexValue(r[j])
    ensures |r| == |Distinct(IpList(ps))|
    ensures Filter(r, IsNamedKey) == Filter(Distinct(IpList(ps)), IsNamedKey)
  {
    KeyOrder(Distinct(IpList(ps)))
  }

  lemma IndexLeTotal()
    ensures TotalPreorder(IndexLe)
  {
  }

  /** Sorting distinct array indices keeps them, distinct, in order. */
  lemma SortedIndices(idx: seq<string>, sorted: seq<string>)
    requires NoDups(idx) && forall x | x in idx :: IsArrayIndex(x)
    requires multiset(sorted) == multiset(idx) && SortedBy(sorted, IndexLe)
    ensures forall x :: x in sorted <==> x in idx
    ensures NoDups(sorted)
    ensures forall i, j | 0 <= i < j < |sorted| :: IsArrayIndex(sorted[i]) && IndexValue(sorted[i]) < IndexValue(sorted[j])
  {
    PermutationNoDups(idx, sorted);
    forall x
      ensures x in sorted <==> x in idx
    {
      assert x in sorted <==> x in multiset(sorted);
      assert x in idx <==> x in multiset(idx);
    }
    forall i, j | 0 <= i < j < |sorted|
      ensures IsArrayIndex(sorted[i]) && IndexValue(sorted[i]) < IndexValue(sorted[j])
    {
      assert sorted[i] in idx && sorted[j] in idx;
      assert IndexLe(sorted[i], sorted[j]);
    }
  }

  /** Array indices in ascending order followed by named keys: every key
      before an array index is a smaller array index. */
  lemma IndicesThenNamed(sorted: seq<string>, named: seq<string>)
    requires NoDups(sorted) && NoDups(named)
    requires forall i, j | 0 <= i < j < |sorted| :: IsArrayIndex(sorted[i]) && IndexValue(sorted[i]) < IndexValue(sorted[j])
    requires forall x | x in sorted :: IsArrayIndex(x)
    requires forall x | x in named :: !IsArrayIndex(x)
    ensures NoDups(sorted + named)
    ensures var r := sorted + named;
            forall i, j | 0 <= i < j < |r| && IsArrayIndex(r[j]) ::
              IsArrayIndex(r[i]) && IndexValue(r[i]) < IndexValue(r[j])
  {
    var r := sorted + named;
    forall i, j | 0 <= i < j < |r|
      ensures r[i] != r[j]
      ensures IsArrayIndex(r[j]) ==> IsArrayIndex(r[i]) && IndexValue(r[i]) < IndexValue(r[j])
    {
      if j >= |sorted| {
        assert r[j] == named[j - |sorted|];
        if i >= |sorted| {
          assert r[i] == named[i - |sorted|];
        } else {
          assert r[i] == sorted[i];
        }
      } else {
        assert r[i] == sorted[i] && r[j] == sorted[j];
      }
    }
  }

  /** Two users on "10" who signed up before two users on "2". */
  function LateSmallIp(a: UserId, b: UserId, c: UserId, d: UserId, email: string): seq<Profile> {
    [Profile(a, email, Some("10"), None), Profile(b, email, Some("10"), None),
     Profile(c, email, Some("2"), None), Profile(d, email, Some("2"), None)]
  }

  /** The "2" group is visited before the "10" group, though its users
      signed up later. */
  lemma IntegerLikeIpsSorted(a: UserId, b: UserId, c: UserId, d: UserId, email: string)
    ensures IpOrder(LateSmallIp(a, b, c, d, email)) == ["2", "10"]
  {
    var ps := LateSmallIp(a, b, c, d, email);
    LateSmallIpList(a, b, c, d, email);
    DistinctOfRuns();
    TwoIndexKeys();
    var r := IpOrder(ps);
    assert |r| == 2;
    assert r[0] in IpList(ps) && r[1] in IpList(ps) && r[0] != r[1];
    assert r[0] == "2" && r[1] == "10";
    assert r == [r[0], r[1]];
  }

  lemma LateSmallIpList(a: UserId, b: UserId, c: UserId, d: UserId, email: string)
    ensures IpList(LateSmallIp(a, b, c, d, email)) == ["10", "10", "2", "2"]
  {
    var ps := LateSmallIp(a, b, c, d, email);
    assert IpList(ps[3..]) == ["2"];
    assert IpList(ps[2..]) == ["2", "2"] by { assert ps[2..][1..] == ps[3..]; }
    assert IpList(ps[1..]) == ["10", "2", "2"] by { assert ps[1..][1..] == ps[2..]; }
  }

  lemma DistinctOfRuns()
    ensures Distinct(["10", "10", "2", "2"]) == ["10", "2"]
  {
    DistinctRunsPrefix();
    var s := ["10", "10", "2", "2"];
    assert s[..3] == ["10", "10", "2"];
  }

  lemma DistinctRunsPrefix()
    ensures Distinct(["10", "10", "2"]) == ["10", "2"]
  {
    DistinctRunOfTen();
    var s := ["10", "10", "2"];
    assert s[..2] == ["10", "10"];
  }

  lemma DistinctRunOfTen()
    ensures Distinct(["10", "10"]) == ["10"]
  {
    var s := ["10", "10"];
    assert s[..1] == ["10"];
    assert Distinct(s[..1]) == ["10"] by { assert s[..1][..0] == []; }
  }

  lemma TwoIndexKeys()
    ensures IsArrayIndex("2") && IsArrayIndex("10") && IndexValue("2") < IndexValue("10")
  {
    assert DecimalValue("2") == 2;
    assert NatToString(2) == "2";
    TenIsIndex();
  }

  lemma TenIsIndex()
    ensures AllDigits("10") && DecimalValue("10") == 10 && NatToString(10) == "10"
  {
    assert "10"[..1] == "1";
    assert DecimalValue("1") == 1;
    assert NatToString(10) == NatToString(1) + [DigitChar(0)];
  }

  /** With no IP that reads as an array index (every real IPv4 or IPv6
      address), the groups are visited in order of their first user. */
  lemma NamedIpsInSignupOrder(ps: seq<Profile>)
    requires forall k | 0 <= k < |ps| && HasIp(ps[k]) :: !IsArrayIndex(ps[k].signupIP.value)
    ensures IpOrder(ps) == Distinct(IpList(ps))
  {
    AllIpsNamed(ps);
    NamedKeysKeepOrder(Distinct(IpList(ps)));
  }

  lemma AllIpsNamed(ps: seq<Profile>)
    requires forall k | 0 <= k < |ps| && HasIp(ps[k]) :: !IsArrayIndex(ps[k].signupIP.value)
    ensures forall x | x in Distinct(IpList(ps)) :: IsNamedKey(x)
  {
    forall x | x in IpList(ps)
      ensures IsNamedKey(x)
    {
      var k :| 0 <= k < |ps| && InGroup(ps[k], x);
    }
  }

  /** With no array-index keys, `for...in` keeps insertion order. */
  lemma NamedKeysKeepOrder(keys: seq<string>)
    requires NoDups(keys)
    requires forall x | x in keys :: IsNamedKey(x)
    ensures KeyOrder(keys) == keys
  {
    var r := KeyOrder(keys);
    assert forall i | 0 <= i < |r| :: r[i] in keys;
    FilterAllOrNone(r, IsNamedKey);
    FilterAllOrNone(keys, IsNamedKey);
  }

  /** `ipGroups[ip].map(u => u._id)`: the ids of the users with that IP. */
  function GroupIds(ps: seq<Profile>, ip: string): (ids: seq<UserId>)
    ensures |ids| <= |ps|
    ensures forall k | 0 <= k < |ps| && InGroup(ps[k], ip) :: ps[k].id in ids
    ensures forall id | id in ids :: exists k | 0 <= k < |ps| :: ps[k].id == id && InGroup(ps[k], ip)
  {
    if |ps| == 0 then []
    else
      var rest := GroupIds(ps[1..], ip);
      assert forall k | 1 <= k < |ps| :: ps[k] == ps[1..][k - 1];
      (if InGroup(ps[0], ip) then [ps[0].id] else []) + rest
  }

  /** The predictions made by any of `ids`, in store order. */
  function PredictionsOf(preds: seq<Prediction>, ids: seq<UserId>): (r: seq<Prediction>)
    ensures forall p :: p in r <==> p in preds && p.userId in ids
  {
    if |preds| == 0 then []
    else
      var rest := PredictionsOf(preds[1..], ids);
      assert preds == [preds[0]] + preds[1..];
      (if preds[0].userId in ids then [preds[0]] else []) + rest
  }

  function MatchIdsOf(ps: seq<Prediction>): (r: seq<MatchId>)
    ensures |r| == |ps|
    ensures forall i | 0 <= i < |ps| :: r[i] == ps[i].matchId
  {
    seq(|ps|, i requires 0 <= i < |ps| => ps[i].matchId)
  }

  /** The keys of `matchPredictions` in `for...in` order, added in order of
      the group's predictions. */
  function MatchOrder(gp: seq<Prediction>): (r: seq<MatchId>)
    ensures forall m :: m in r <==> m in MatchIdsOf(gp)
    ensures NoDups(r)
  {
    KeyOrder(Distinct(MatchIdsOf(gp)))
  }

  /** `matchPredictions[m]`: the group's predictions on match `m`. */
  function Bucket(gp: seq<Prediction>, m: MatchId): (b: seq<Prediction>)
    ensures forall p :: p in b <==> p in gp && p.matchId == m
  {
    if |gp| == 0 then []
    else
      var rest := Bucket(gp[1..], m);
      assert gp == [gp[0]] + gp[1..];
      (if gp[0].matchId == m then [gp[0]] else []) + rest
  }

  /** `new Set(preds.map(p => p.predictedTeam))`. */
  function TeamsOf(b: seq<Prediction>): set<string> {
    set p | p in b :: p.predictedTeam
  }

  /** A bucket fires when it holds at least two predictions naming at least
      two different teams. */
  predicate BucketFires(b: seq<Prediction>) {
    |b| >= 2 && |TeamsOf(b)| > 1
  }

  /** `preds.map(p => p.userId)`: the bucket's counterpart of `Targets`. */
  function UserIdsOf(b: seq<Prediction>): (r: seq<UserId>)
    ensures |r| == |b|
    ensures forall i | 0 <= i < |b| :: r[i] == b[i].userId
  {
    seq(|b|, i requires 0 <= i < |b| => b[i].userId)
  }

  /** `[...new Set(preds.map(p => p.userId))]`. */
  function FlagIds(b: seq<Prediction>): seq<UserId> {
    Distinct(UserIdsOf(b))
  }

  /** `getEmail(userId)` of the admin copy: the email of the first user with
      that id, or `'Unknown'` when there is none or it is empty. */
  function EmailOf(ps: seq<Profile>, id: UserId): (r: string)
    ensures r == "Unknown" <==> (forall k | 0 <= k < |ps| :: ps[k].id != id) || FirstWithId(ps, id).email in {"", "Unknown"}
  {
    if |ps| == 0 then "Unknown"
    else if ps[0].id == id then (if ps[0].email == "" then "Unknown" else ps[0].email)
    else
      assert forall k | 1 <= k < |ps| :: ps[k] == ps[1..][k - 1];
      EmailOf(ps[1..], id)
  }

  /** `users.find(u => u._id === id)`. */
  function FirstWithId(ps: seq<Profile>, id: UserId): Profile
    requires exists k | 0 <= k < |ps| :: ps[k].id == id
  {
    if ps[0].id == id then ps[0]
    else
      assert forall k | 1 <= k < |ps| :: ps[k] == ps[1..][k - 1];
      FirstWithId(ps[1..], id)
  }

  function SameIpWrites(ps: seq<Profile>, ip: string, ids: seq<UserId>): (r: seq<FlagWrite>)
    ensures |r| == |ids|
    ensures forall i | 0 <= i < |ids| :: r[i] == FlagWrite(ids[i], SameIp(ip), EmailOf(ps, ids[i]))
  {
    seq(|ids|, i requires 0 <= i < |ids| => FlagWrite(ids[i], SameIp(ip), EmailOf(ps, ids[i])))
  }

  /** The writes of one match bucket: every distinct user in it, when it fires. */
  function BucketLog(ps: seq<Profile>, ip: string, b: seq<Prediction>): seq<FlagWrite> {
    if BucketFires(b) then SameIpWrites(ps, ip, FlagIds(b)) else []
  }

  /** The writes of the match buckets `ms` of one IP group, in order. */
  function GroupLog(ps: seq<Profile>, ip: string, gp: seq<Prediction>, ms: seq<MatchId>): seq<FlagWrite> {
    if |ms| == 0 then []
    else BucketLog(ps, ip, Bucket(gp, ms[0])) + GroupLog(ps, ip, gp, ms[1..])
  }

  /** The writes of one IP group; groups of fewer than two users are skipped. */
  function IpGroupLog(ps: seq<Profile>, preds: seq<Prediction>, ip: string): seq<FlagWrite> {
    var ids := GroupIds(ps, ip);
    if |ids| < 2 then []
    else
      var gp := PredictionsOf(preds, ids);
      GroupLog(ps, ip, gp, MatchOrder(gp))
  }

  function IpLogOver(ps: seq<Profile>, preds: seq<Prediction>, ips: seq<string>): seq<FlagWrite> {
    if |ips| == 0 then []
    else IpGroupLog(ps, preds, ips[0]) + IpLogOver(ps, preds, ips[1..])
  }

  /** All writes of the same-IP rule, in the order the source issues them. */
  function IpLog(ps: seq<Profile>, preds: seq<Prediction>): seq<FlagWrite> {
    IpLogOver(ps, preds, IpOrder(ps))
  }

  // ------------------------------------------------- nearby-signup rule

  /** `u.signupCoords?.lat && u.signupCoords?.lng`: both present and non-zero. */
  predicate HasCoords(p: Profile) {
    && p.coords.Some?
    && p.coords.value.lat.Some? && p.coords.value.lat.value != 0.0
    && p.coords.value.lng.Some? && p.coords.value.lng.value != 0.0
  }

  function CoordsOf(p: Profile): Coords {
    if p.coords.Some? then p.coords.value else Coords(None, None)
  }

  /** `usersWithCoords`, in user order. */
  function CoordUsers(ps: seq<Profile>): (r: seq<Profile>)
    ensures |r| <= |ps|
    ensures forall p | p in r :: HasCoords(p) && p in ps
    ensures forall p | p in ps && HasCoords(p) :: p in r
  {
    if |ps| == 0 then []
    else
      var rest := CoordUsers(ps[1..]);
      assert ps == [ps[0]] + ps[1..];
      (if HasCoords(ps[0]) then [ps[0]] else []) + rest
  }

  /** Users `a` and `b` predicted different teams on some common match. */
  predicate Opposed(preds: seq<Prediction>, a: UserId, b: UserId) {
    exists p, q | p in preds && q in preds ::
      p.userId == a && q.userId == b && p.matchId == q.matchId && p.predictedTeam != q.predictedTeam
  }

  /** The pair (a, b), with `a` before `b`, is flagged. */
  predicate PairFires(preds: seq<Prediction>, dist: Distance, a: Profile, b: Profile) {
    dist(CoordsOf(a), CoordsOf(b)) <= NearbyLimit && Opposed(preds, a.id, b.id)
  }

  function PairLog(preds: seq<Prediction>, dist: Distance, a: Profile, b: Profile): seq<FlagWrite> {
    if PairFires(preds, dist, a, b) then
      var c := Nearby(Round(dist(CoordsOf(a), CoordsOf(b))));
      [FlagWrite(a.id, c, a.email), FlagWrite(b.id, c, b.email)]
    else []
  }

  /** The pairs (a, rest[j]) in order of `j`. */
  function RowLog(preds: seq<Prediction>, dist: Distance, a: Profile, rest: seq<Profile>): seq<FlagWrite> {
    if |rest| == 0 then []
    else PairLog(preds, dist, a, rest[0]) + RowLog(preds, dist, a, rest[1..])
  }

  /** Every pair i < j of `cu`, row by row. */
  function PairsLog(preds: seq<Prediction>, dist: Distance, cu: seq<Profile>): seq<FlagWrite> {
    if |cu| == 0 then []
    else RowLog(preds, dist, cu[0], cu[1..]) + PairsLog(preds, dist, cu[1..])
  }

  /** All writes of the nearby-signup rule, in the order the source issues them. */
  function CoordLog(ps: seq<Profile>, preds: seq<Prediction>, dist: Distance): seq<FlagWrite> {
    PairsLog(preds, dist, CoordUsers(ps))
  }

  // ---------------------------------------------------------- the pass

  /** Every write of one pass: the same-IP rule, then the nearby-signup rule. */
  function PassLog(ps: seq<Profile>, preds: seq<Prediction>, dist: Distance): seq<FlagWrite> {
    IpLog(ps, preds) + CoordLog(ps, preds, dist)
  }

  /** The user store after one complete pass over its own snapshot. */
  function Scan(users: seq<User>, preds: seq<Prediction>, dist: Distance): seq<User> {
    Apply(users, PassLog(Profiles(users), preds, dist))
  }
}
