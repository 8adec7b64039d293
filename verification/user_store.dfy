/** The `users` collection as the handlers use it: `findById` and
    `findByIdAndUpdate` on a sequence of documents with unique ids. */
module UserStore {
  import opened Common
  import opened Models

  /** `User.findById(id)`: the first stored user with that id. */
  function FindUser(users: seq<User>, id: UserId): (r: Option<User>)
    ensures r.Some? <==> exists i | 0 <= i < |users| :: users[i].id == id
    ensures r.Some? ==> exists i | 0 <= i < |users| :: users[i] == r.value && users[i].id == id
                         && forall j | 0 <= j < i :: users[j].id != id
  {
    if |users| == 0 then None
    else if users[0].id == id then Some(users[0])
    else
      var r := FindUser(users[1..], id);
      assert forall i | 1 <= i < |users| :: users[i] == users[1..][i - 1];
      if r.Some? then
        var i :| 0 <= i < |users[1..]| && users[1..][i] == r.value && users[1..][i].id == id
                 && forall j | 0 <= j < i :: users[1..][j].id != id;
        assert users[i + 1] == r.value;
        r
      else r
  }

  /** `User.findByIdAndUpdate(id, change)`: every stored user with that id
      becomes `change` of itself; a missing id changes nothing. */
  function UpdateUser(users: seq<User>, id: UserId, change: User -> User): (r: seq<User>)
    ensures |r| == |users|
    ensures forall i | 0 <= i < |users| && users[i].id != id :: r[i] == users[i]
    ensures forall i | 0 <= i < |users| && users[i].id == id :: r[i] == change(users[i])
  {
    seq(|users|, i requires 0 <= i < |users| => if users[i].id == id then change(users[i]) else users[i])
  }

  /** With unique ids, reading back an updated user sees the update, and an
      update that keeps ids keeps them unique. */
  lemma FindAfterUpdate(users: seq<User>, id: UserId, change: User -> User)
    requires UniqueUserIds(users)
    requires forall u: User :: change(u).id == u.id
    ensures UniqueUserIds(UpdateUser(users, id, change))
    ensures FindUser(UpdateUser(users, id, change), id)
            == if FindUser(users, id).Some? then Some(change(FindUser(users, id).value)) else None
  {
    var r := UpdateUser(users, id, change);
    assert forall i | 0 <= i < |users| :: r[i].id == users[i].id;
    if FindUser(users, id).Some? {
      var i :| 0 <= i < |users| && users[i] == FindUser(users, id).value && users[i].id == id;
      var k :| 0 <= k < |r| && r[k] == FindUser(r, id).value && r[k].id == id;
      assert k == i;
    }
  }
}
