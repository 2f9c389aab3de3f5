/** The post-confirmation trigger: how USER nodes enter the store. */
module PostConfirmation {
  import opened Values
  import opened GraphStore
  import Users

  /** `event.request.userAttributes` of the identity provider's event. */
  datatype TriggerEvent = TriggerEvent(sub: string, email: string)

  /** `{email: $email, subId: $subId}` of a new USER: both attributes as the
      identity provider sent them, and nothing else. */
  function UserProps(ev: TriggerEvent): (p: Props)
    ensures Get(p, Email) == Str(ev.email) && Get(p, SubId) == Str(ev.sub)
    ensures forall k :: k in p ==> k == Email || k == SubId
  {
    map[Email := Str(ev.email), SubId := Str(ev.sub)]
  }

  /** `CREATE (:USER {email: $email, subId: $subId})`, with no check that a
      user with that subject id already exists. */
  function ConfirmEffect(s: Store, ev: TriggerEvent): (r: Store)
    requires s.Valid()
    ensures r.Valid()
    ensures s.nextId !in s.nodes && r.nodes.Keys == s.nodes.Keys + {s.nextId}
    ensures IsUser(r, s.nextId, ev.sub) && Get(r.nodes[s.nextId].props, Email) == Str(ev.email)
    ensures forall id :: id in s.nodes ==> r.nodes[id] == s.nodes[id]
    ensures r.edges == s.edges && r.nextId == s.nextId + 1
  {
    s.WithNode(Node(User, UserProps(ev)))
  }

  /** The handler: one node creation, then the event goes back unchanged. */
  method Handler(g: Graph, ev: TriggerEvent) returns (r: TriggerEvent)
    requires g.Valid()
    modifies g
    ensures g.Valid() && g.View() == ConfirmEffect(old(g.View()), ev)
    ensures r == ev
  {
    var _ := g.AddNode(Node(User, UserProps(ev)));
    r := ev;
  }

  /** Every confirmation adds one more USER for the subject id, even when one
      exists already: the rows a lookup by subject id sees gain the new node. */
  lemma {:induction false} ConfirmAddsUser(s: Store, ev: TriggerEvent)
    requires s.Valid()
    ensures Rows(ConfirmEffect(s, ev), UsersWith(ev.sub)) == Rows(s, UsersWith(ev.sub)) + [s.nextId]
  {
    var r := ConfirmEffect(s, ev);
    var before := Rows(s, UsersWith(ev.sub));
    var after := Rows(r, UsersWith(ev.sub));
    var expected := before + [s.nextId];
    forall x ensures x in after <==> x in expected {
      assert Matches(r, UsersWith(ev.sub), x) <==> IsUser(r, x, ev.sub);
      assert Matches(s, UsersWith(ev.sub), x) <==> IsUser(s, x, ev.sub);
    }
    forall i, j | 0 <= i < j < |expected| ensures expected[i] < expected[j] {
      if j < |before| {
      } else {
        assert expected[i] in before;
        assert Matches(s, UsersWith(ev.sub), expected[i]);
      }
    }
    IncreasingUnique(after, expected);
  }

  /** Two confirmations of a new subject id give it two USER rows, oldest first. */
  lemma TwiceRows(s: Store, ev: TriggerEvent)
    requires s.Valid()
    requires !exists u :: IsUser(s, u, ev.sub)
    ensures Rows(ConfirmEffect(ConfirmEffect(s, ev), ev), UsersWith(ev.sub)) == [s.nextId, s.nextId + 1]
  {
    assert Rows(s, UsersWith(ev.sub)) == [] by {
      assert forall x :: !Matches(s, UsersWith(ev.sub), x);
    }
    var once := ConfirmEffect(s, ev);
    ConfirmAddsUser(s, ev);
    assert Rows(once, UsersWith(ev.sub)) == [s.nextId];
    ConfirmAddsUser(once, ev);
    assert once.nextId == s.nextId + 1;
  }

  /** A duplicate confirmation leaves the lookup by subject id answering with
      the user created first. */
  lemma DuplicateKeepsFirstUser(s: Store, ev: TriggerEvent)
    requires s.Valid()
    requires !exists u :: IsUser(s, u, ev.sub)
    ensures var twice := ConfirmEffect(ConfirmEffect(s, ev), ev);
            Rows(twice, UsersWith(ev.sub)) == [s.nextId, s.nextId + 1]
            && Users.GetUser(twice, ev.sub) == Success(Project(twice, s.nextId))
  {
    TwiceRows(s, ev);
  }
}
