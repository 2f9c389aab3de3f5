/** `getUserOperation`: look a USER up by the subject id of its identity. */
module Users {
  import opened Values
  import opened GraphStore

  /** `MATCH (user:USER) WHERE user.subId = $userId RETURN user`, then the
      first record projected with its engine id. Several USER nodes may carry
      the same subject id; the first row is taken to be the one with the
      smallest id. */
  function GetUser(s: Store, subId: string): (r: Outcome<Props>)
    requires s.Valid()
    ensures r.Success? <==> exists u :: IsUser(s, u, subId)
    ensures r.Failure? ==> r.error == NotFound
    ensures r.Success? ==>
              exists u :: IsUser(s, u, subId) && r.value == Project(s, u)
                          && forall v :: IsUser(s, v, subId) ==> u <= v
  {
    var rows := Rows(s, UsersWith(subId));
    assert forall u :: IsUser(s, u, subId) ==> u in rows by {
      forall u | IsUser(s, u, subId) ensures u in rows { assert Matches(s, UsersWith(subId), u); }
    }
    if rows == [] then
      Failure(NotFound)
    else
      assert Matches(s, UsersWith(subId), rows[0]);
      assert forall v :: IsUser(s, v, subId) ==> rows[0] <= v by {
        forall v | IsUser(s, v, subId) ensures rows[0] <= v {
          assert Matches(s, UsersWith(subId), v);
          var k :| 0 <= k < |rows| && rows[k] == v;
        }
      }
      Success(Project(s, rows[0]))
  }

  /** The returned record carries the engine id under `id`, overriding any
      stored `id` property, and every other property of the user as stored. */
  lemma GetUserShape(s: Store, subId: string)
    requires s.Valid()
    requires GetUser(s, subId).Success?
    ensures exists u :: IsUser(s, u, subId)
                        && Get(GetUser(s, subId).value, Identity) == Int(Low(u))
                        && Get(GetUser(s, subId).value, SubId) == Str(subId)
                        && forall k :: k != Identity ==> Get(GetUser(s, subId).value, k) == Get(s.nodes[u].props, k)
  {
    var u :| IsUser(s, u, subId) && GetUser(s, subId).value == Project(s, u)
             && forall v :: IsUser(s, v, subId) ==> u <= v;
  }
}
