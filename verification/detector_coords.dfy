/** The nearby-signup rule against a declarative reference: in one pass, a
    user with coordinates is written once for every other user with
    coordinates whose pair (taken in store order) lies within 50 metres and
    predicted opposite teams on some common match. */
module DetectorCoords {
  import opened Common
  import opened Seqs
  import opened Models
  import opened Detector
  import opened DetectorStore

  // ------------------------------------------------------------ reference

  /** The pair of users `i` and `j` fires, taken in store order (the
      earlier one first, as the nested loops visit it). */
  predicate NearPair(ps: seq<Profile>, preds: seq<Prediction>, dist: Distance, i: int, j: int)
    requires 0 <= i < |ps| && 0 <= j < |ps|
  {
    if i < j then PairFires(preds, dist, ps[i], ps[j]) else PairFires(preds, dist, ps[j], ps[i])
  }

  /** The ids of the users the nearby-signup rule pairs with user `k`. */
  ghost function NearPartners(ps: seq<Profile>, preds: seq<Prediction>, dist: Distance, k: int): set<UserId>
    requires 0 <= k < |ps|
  {
    if HasCoords(ps[k]) then
      set j | 0 <= j < |ps| && j != k && HasCoords(ps[j]) && NearPair(ps, preds, dist, j, k) :: ps[j].id
    else {}
  }

  // ------------------------------------------------------------- helpers

  predicate IdAbsent(xs: seq<Profile>, id: UserId) {
    forall q | q in xs :: q.id != id
  }

  lemma {:induction false} CoordUsersUnique(ps: seq<Profile>)
    requires UniqueIds(ps)
    ensures UniqueIds(CoordUsers(ps))
  {
    if |ps| > 0 {
      var rest := ps[1..];
      assert UniqueIds(rest);
      CoordUsersUnique(rest);
      if HasCoords(ps[0]) {
        var r := CoordUsers(ps);
        var cu := CoordUsers(rest);
        assert r == [ps[0]] + cu;
        forall t | 0 <= t < |cu|
          ensures cu[t].id != ps[0].id
        {
          assert cu[t] in rest;
          var s :| 0 <= s < |rest| && rest[s] == cu[t];
          assert ps[s + 1] == cu[t];
        }
      }
    }
  }

  lemma PairLogCount(preds: seq<Prediction>, dist: Distance, a: Profile, b: Profile, id: UserId)
    ensures WritesTo(PairLog(preds, dist, a, b), id)
            == if PairFires(preds, dist, a, b) then (if a.id == id then 1 else 0) + (if b.id == id then 1 else 0) else 0
  {
    var t := Targets(PairLog(preds, dist, a, b));
    if PairFires(preds, dist, a, b) {
      assert t == [a.id, b.id] && t[1..] == [b.id] && t[1..][1..] == [];
      assert Occurrences(t[1..], id) == (if b.id == id then 1 else 0) + Occurrences(t[1..][1..], id);
    }
  }

  /** A row never writes an id that is neither its head nor in it. */
  lemma {:induction false} RowLogUntargeted(preds: seq<Prediction>, dist: Distance, a: Profile, xs: seq<Profile>, id: UserId)
    requires a.id != id && IdAbsent(xs, id)
    ensures WritesTo(RowLog(preds, dist, a, xs), id) == 0
  {
    if |xs| > 0 {
      RowLogUntargeted(preds, dist, a, xs[1..], id);
      PairLogCount(preds, dist, a, xs[0], id);
      WritesToConcat(PairLog(preds, dist, a, xs[0]), RowLog(preds, dist, a, xs[1..]), id);
    }
  }

  /** The ids of the members of `xs` that pair with `a`. */
  ghost function RowPartners(preds: seq<Prediction>, dist: Distance, a: Profile, xs: seq<Profile>): set<UserId> {
    set q | q in xs && PairFires(preds, dist, a, q) :: q.id
  }

  lemma RowPartnersSplit(preds: seq<Prediction>, dist: Distance, a: Profile, xs: seq<Profile>)
    requires |xs| > 0
    ensures RowPartners(preds, dist, a, xs)
            == (if PairFires(preds, dist, a, xs[0]) then {xs[0].id} else {}) + RowPartners(preds, dist, a, xs[1..])
  {
    assert xs == [xs[0]] + xs[1..];
  }

  /** The head of a row is written once per partner in the row. */
  lemma {:induction false} RowLogOwn(preds: seq<Prediction>, dist: Distance, a: Profile, xs: seq<Profile>)
    requires UniqueIds(xs) && IdAbsent(xs, a.id)
    ensures WritesTo(RowLog(preds, dist, a, xs), a.id) == |RowPartners(preds, dist, a, xs)|
  {
    if |xs| == 0 {
      assert RowPartners(preds, dist, a, xs) == {};
    } else {
      var rest := xs[1..];
      assert UniqueIds(rest);
      RowLogOwn(preds, dist, a, rest);
      PairLogCount(preds, dist, a, xs[0], a.id);
      WritesToConcat(PairLog(preds, dist, a, xs[0]), RowLog(preds, dist, a, rest), a.id);
      RowPartnersSplit(preds, dist, a, xs);
      var head: set<UserId> := if PairFires(preds, dist, a, xs[0]) then {xs[0].id} else {};
      assert head !! RowPartners(preds, dist, a, rest);
    }
  }

  /** Any other member of a row is written once if it pairs with the head. */
  lemma {:induction false} RowLogOther(preds: seq<Prediction>, dist: Distance, a: Profile, xs: seq<Profile>, t: int)
    requires UniqueIds(xs) && 0 <= t < |xs| && xs[t].id != a.id
    ensures WritesTo(RowLog(preds, dist, a, xs), xs[t].id) == if PairFires(preds, dist, a, xs[t]) then 1 else 0
  {
    var id := xs[t].id;
    var rest := xs[1..];
    PairLogCount(preds, dist, a, xs[0], id);
    WritesToConcat(PairLog(preds, dist, a, xs[0]), RowLog(preds, dist, a, rest), id);
    if t == 0 {
      forall q | q in rest
        ensures q.id != id
      {
        var s :| 0 <= s < |rest| && rest[s] == q;
        assert xs[s + 1] == q;
      }
      RowLogUntargeted(preds, dist, a, rest, id);
    } else {
      assert UniqueIds(rest);
      assert rest[t - 1] == xs[t];
      RowLogOther(preds, dist, a, rest, t - 1);
    }
  }

  lemma CoordLogUnfold(ps: seq<Profile>, preds: seq<Prediction>, dist: Distance)
    requires |ps| > 0
    ensures CoordLog(ps, preds, dist)
            == (if HasCoords(ps[0]) then RowLog(preds, dist, ps[0], CoordUsers(ps[1..])) else [])
               + CoordLog(ps[1..], preds, dist)
  {
    var cu := CoordUsers(ps[1..]);
    if HasCoords(ps[0]) {
      assert ([ps[0]] + cu)[1..] == cu;
    } else {
      assert CoordUsers(ps) == cu;
      assert [] + CoordLog(ps[1..], preds, dist) == CoordLog(ps[1..], preds, dist);
    }
  }

  /** A user absent from the snapshot is never written by the rule. */
  lemma {:induction false} CoordLogUntargeted(ps: seq<Profile>, preds: seq<Prediction>, dist: Distance, id: UserId)
    requires IdAbsent(ps, id)
    ensures WritesTo(CoordLog(ps, preds, dist), id) == 0
  {
    if |ps| > 0 {
      var rest := ps[1..];
      assert IdAbsent(rest, id);
      CoordLogUntargeted(rest, preds, dist, id);
      CoordLogUnfold(ps, preds, dist);
      if HasCoords(ps[0]) {
        assert IdAbsent(CoordUsers(rest), id);
        RowLogUntargeted(preds, dist, ps[0], CoordUsers(rest), id);
        WritesToConcat(RowLog(preds, dist, ps[0], CoordUsers(rest)), CoordLog(rest, preds, dist), id);
      } else {
        assert CoordLog(ps, preds, dist) == CoordLog(rest, preds, dist);
      }
    }
  }

  // ----------------------------------------------------- reference steps

  /** The first user's partners are the row the loops build for it. */
  lemma FirstPartners(ps: seq<Profile>, preds: seq<Prediction>, dist: Distance)
    requires |ps| > 0 && HasCoords(ps[0])
    ensures NearPartners(ps, preds, dist, 0)
            == RowPartners(preds, dist, ps[0], CoordUsers(ps[1..]))
  {
    var rest := ps[1..];
    var cu := CoordUsers(rest);
    forall x | x in NearPartners(ps, preds, dist, 0)
      ensures exists q | q in cu :: PairFires(preds, dist, ps[0], q) && q.id == x
    {
      var j :| 0 <= j < |ps| && j != 0 && HasCoords(ps[j]) && NearPair(ps, preds, dist, j, 0) && ps[j].id == x;
      assert ps[j] == rest[j - 1] && ps[j] in rest;
    }
    forall q | q in cu && PairFires(preds, dist, ps[0], q)
      ensures q.id in NearPartners(ps, preds, dist, 0)
    {
      var s :| 0 <= s < |rest| && rest[s] == q;
      assert ps[s + 1] == q;
      assert NearPair(ps, preds, dist, s + 1, 0);
    }
  }

  /** A later user's partners: the first user (if they pair) plus its
      partners among the others. */
  lemma LaterPartners(ps: seq<Profile>, preds: seq<Prediction>, dist: Distance, k: int)
    requires 0 < k < |ps|
    ensures NearPartners(ps, preds, dist, k)
            == (if HasCoords(ps[k]) && HasCoords(ps[0]) && PairFires(preds, dist, ps[0], ps[k]) then {ps[0].id} else {})
               + NearPartners(ps[1..], preds, dist, k - 1)
  {
    var rest := ps[1..];
    assert rest[k - 1] == ps[k];
    if HasCoords(ps[k]) {
      forall x | x in NearPartners(ps, preds, dist, k) && x != ps[0].id
        ensures x in NearPartners(rest, preds, dist, k - 1)
      {
        var j :| 0 <= j < |ps| && j != k && HasCoords(ps[j]) && NearPair(ps, preds, dist, j, k) && ps[j].id == x;
        assert j != 0;
        assert rest[j - 1] == ps[j];
        assert NearPair(rest, preds, dist, j - 1, k - 1);
      }
      forall x | x in NearPartners(rest, preds, dist, k - 1)
        ensures x in NearPartners(ps, preds, dist, k)
      {
        var j :| 0 <= j < |rest| && j != k - 1 && HasCoords(rest[j]) && NearPair(rest, preds, dist, j, k - 1) && rest[j].id == x;
        assert ps[j + 1] == rest[j];
        assert NearPair(ps, preds, dist, j + 1, k);
      }
      if ps[0].id in NearPartners(ps, preds, dist, k) {
        var j :| 0 <= j < |ps| && j != k && HasCoords(ps[j]) && NearPair(ps, preds, dist, j, k) && ps[j].id == ps[0].id;
        if j != 0 {
          assert rest[j - 1] == ps[j];
          assert ps[j].id in NearPartners(rest, preds, dist, k - 1) by {
            assert NearPair(rest, preds, dist, j - 1, k - 1);
          }
        }
      }
      if HasCoords(ps[0]) && PairFires(preds, dist, ps[0], ps[k]) {
        assert NearPair(ps, preds, dist, 0, k);
      }
    }
  }

  // -------------------------------------------------------------- theorem

  /** The nearby-signup rule writes user `k` exactly once per near partner:
      once per (user, near pair), not once per pass. */
  lemma {:induction false} CoordMultiplicity(ps: seq<Profile>, preds: seq<Prediction>, dist: Distance, k: int)
    requires UniqueIds(ps) && 0 <= k < |ps|
    ensures WritesTo(CoordLog(ps, preds, dist), ps[k].id) == |NearPartners(ps, preds, dist, k)|
  {
    if k == 0 {
      CoordFirstCount(ps, preds, dist);
    } else {
      var rest := ps[1..];
      assert UniqueIds(rest);
      assert rest[k - 1] == ps[k];
      CoordMultiplicity(rest, preds, dist, k - 1);
      CoordLaterCount(ps, preds, dist, k);
    }
  }

  /** No later user shares the first user's id. */
  lemma FirstIdUnique(ps: seq<Profile>)
    requires UniqueIds(ps) && |ps| > 0
    ensures forall q | q in ps[1..] :: q.id != ps[0].id
  {
    var rest := ps[1..];
    forall q | q in rest
      ensures q.id != ps[0].id
    {
      var s :| 0 <= s < |rest| && rest[s] == q;
      assert ps[s + 1] == q;
    }
  }

  /** The first user is written once per near partner, all from its own row. */
  lemma CoordFirstCount(ps: seq<Profile>, preds: seq<Prediction>, dist: Distance)
    requires UniqueIds(ps) && |ps| > 0
    ensures WritesTo(CoordLog(ps, preds, dist), ps[0].id) == |NearPartners(ps, preds, dist, 0)|
  {
    var rest := ps[1..];
    var cu := CoordUsers(rest);
    assert UniqueIds(rest);
    CoordUsersUnique(rest);
    CoordLogUnfold(ps, preds, dist);
    var head := if HasCoords(ps[0]) then RowLog(preds, dist, ps[0], cu) else [];
    WritesToConcat(head, CoordLog(rest, preds, dist), ps[0].id);
    FirstIdUnique(ps);
    CoordLogUntargeted(rest, preds, dist, ps[0].id);
    if HasCoords(ps[0]) {
      RowLogOwn(preds, dist, ps[0], cu);
      FirstPartners(ps, preds, dist);
    }
  }

  /** A later user gains one write from the first user's row when the two
      fire, on top of its writes among the remaining users. */
  lemma CoordLaterCount(ps: seq<Profile>, preds: seq<Prediction>, dist: Distance, k: int)
    requires UniqueIds(ps) && 0 < k < |ps|
    requires WritesTo(CoordLog(ps[1..], preds, dist), ps[k].id) == |NearPartners(ps[1..], preds, dist, k - 1)|
    ensures WritesTo(CoordLog(ps, preds, dist), ps[k].id) == |NearPartners(ps, preds, dist, k)|
  {
    var rest := ps[1..];
    var cu := CoordUsers(rest);
    CoordLogUnfold(ps, preds, dist);
    var head := if HasCoords(ps[0]) then RowLog(preds, dist, ps[0], cu) else [];
    WritesToConcat(head, CoordLog(rest, preds, dist), ps[k].id);
    FirstRowWrites(ps, preds, dist, k);
    LaterPartners(ps, preds, dist, k);
    FirstIdUnique(ps);
    var own: set<UserId> := if HasCoords(ps[k]) && HasCoords(ps[0]) && PairFires(preds, dist, ps[0], ps[k]) then {ps[0].id} else {};
    assert own !! NearPartners(rest, preds, dist, k - 1);
  }

  /** The first user's row writes a later user once if the two fire, and
      otherwise not at all. */
  lemma FirstRowWrites(ps: seq<Profile>, preds: seq<Prediction>, dist: Distance, k: int)
    requires UniqueIds(ps) && 0 < k < |ps|
    ensures var head := if HasCoords(ps[0]) then RowLog(preds, dist, ps[0], CoordUsers(ps[1..])) else [];
            WritesTo(head, ps[k].id)
            == if HasCoords(ps[k]) && HasCoords(ps[0]) && PairFires(preds, dist, ps[0], ps[k]) then 1 else 0
  {
    var rest := ps[1..];
    var cu := CoordUsers(rest);
    assert UniqueIds(rest);
    assert rest[k - 1] == ps[k];
    assert ps[0].id != ps[k].id;
    CoordUsersUnique(rest);
    if HasCoords(ps[0]) {
      if HasCoords(ps[k]) {
        var t :| 0 <= t < |cu| && cu[t] == ps[k];
        RowLogOther(preds, dist, ps[0], cu, t);
      } else {
        forall q | q in cu
          ensures q.id != ps[k].id
        {
          var s :| 0 <= s < |rest| && rest[s] == q;
          assert s != k - 1;
        }
        RowLogUntargeted(preds, dist, ps[0], cu, ps[k].id);
      }
    }
  }

  /** A user without usable coordinates is never written by the rule. */
  lemma NoCoordsNoWrite(ps: seq<Profile>, preds: seq<Prediction>, dist: Distance, k: int)
    requires UniqueIds(ps) && 0 <= k < |ps| && !HasCoords(ps[k])
    ensures WritesTo(CoordLog(ps, preds, dist), ps[k].id) == 0
  {
    CoordMultiplicity(ps, preds, dist, k);
  }
}
