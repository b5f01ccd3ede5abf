/** The message log and the extraction checkpoint over it. Ids grow along the log. */
module CureMessages {
  import opened CureModel

  // SELECT ... WHERE session AND user AND id > after AND id <= upto ORDER BY id
  function Batch(messages: seq<Message>, user: string, session: string, after: nat, upto: nat): (r: seq<Message>)
    ensures forall m {:trigger m in r} :: m in r <==>
      m in messages && m.user == user && m.session == session && after < m.id <= upto
  {
    if messages == [] then []
    else
      var front, last := Batch(messages[..|messages| - 1], user, session, after, upto), messages[|messages| - 1];
      if last.user == user && last.session == session && after < last.id <= upto then front + [last] else front
  }

  ghost predicate Numbered(messages: seq<Message>) {
    forall i :: 0 <= i < |messages| ==> messages[i].id == i + 1
  }

  function ListMessages(messages: seq<Message>, user: string, session: string, after: nat): (r: seq<Message>)
    ensures forall m {:trigger m in r} :: m in r <==> m in messages && m.user == user && m.session == session && m.id > after
  {
    if messages == [] then []
    else
      var front, last := ListMessages(messages[..|messages| - 1], user, session, after), messages[|messages| - 1];
      if last.user == user && last.session == session && last.id > after then front + [last] else front
  }

  ghost predicate Rising(messages: seq<Message>) {
    forall i, j :: 0 <= i < j < |messages| ==> messages[i].id < messages[j].id
  }

  // ORDER BY id
  lemma {:induction false} ListingIsInOrder(messages: seq<Message>, user: string, session: string, after: nat)
    requires Numbered(messages)
    ensures Rising(ListMessages(messages, user, session, after))
  {
    if messages != [] {
      var front, last := messages[..|messages| - 1], messages[|messages| - 1];
      ListingIsInOrder(front, user, session, after);
      var listed := ListMessages(front, user, session, after);
      forall k | 0 <= k < |listed| ensures listed[k].id < last.id {
        assert listed[k] in listed;
        var i :| 0 <= i < |front| && front[i] == listed[k];
      }
      assert Rising(listed + [last]);
    }
  }

  lemma {:induction false} ListingIsABatch(messages: seq<Message>, user: string, session: string, after: nat, upto: nat)
    requires Numbered(messages) && |messages| <= upto
    ensures ListMessages(messages, user, session, after) == Batch(messages, user, session, after, upto)
  {
    if messages != [] {
      ListingIsABatch(messages[..|messages| - 1], user, session, after, upto);
    }
  }

  lemma {:induction false} BatchesJoin(messages: seq<Message>, user: string, session: string, a: nat, b: nat, c: nat)
    requires Numbered(messages) && a <= b <= c
    ensures Batch(messages, user, session, a, c) == Batch(messages, user, session, a, b) + Batch(messages, user, session, b, c)
  {
    if messages != [] {
      var front := messages[..|messages| - 1];
      BatchesJoin(front, user, session, a, b, c);
      if messages[|messages| - 1].id <= b {
        BatchIsEmpty(front, user, session, b, c);
      }
    }
  }

  lemma {:induction false} BatchIsEmpty(messages: seq<Message>, user: string, session: string, after: nat, upto: nat)
    requires forall m :: m in messages && m.user == user && m.session == session ==> !(after < m.id <= upto)
    ensures Batch(messages, user, session, after, upto) == []
  {
    if messages != [] {
      assert messages[|messages| - 1] in messages;
      BatchIsEmpty(messages[..|messages| - 1], user, session, after, upto);
    }
  }

  // A batch below the log's end does not change when the log grows.
  lemma {:induction false} BatchOfGrownLog(messages: seq<Message>, longer: seq<Message>, user: string, session: string,
                                           after: nat, upto: nat)
    requires Numbered(longer) && messages <= longer && upto <= |messages|
    ensures Batch(longer, user, session, after, upto) == Batch(messages, user, session, after, upto)
  {
    if |messages| < |longer| {
      assert messages <= longer[..|longer| - 1];
      BatchOfGrownLog(messages, longer[..|longer| - 1], user, session, after, upto);
    } else {
      assert messages == longer;
    }
  }

  function LargestId(messages: seq<Message>): nat {
    if messages == [] then 0
    else
      var front, last := LargestId(messages[..|messages| - 1]), messages[|messages| - 1].id;
      if last > front then last else front
  }

  // Where a successful extraction of the listed batch leaves the checkpoint.
  function Advanced(after: nat, batch: seq<Message>): nat {
    if batch == [] then after else LargestId(batch)
  }

  // max(message.id for message in messages)
  method MaxId(messages: seq<Message>) returns (id: nat)
    requires messages != []
    ensures id == LargestId(messages)
    ensures exists m :: m in messages && m.id == id
    ensures forall m :: m in messages ==> m.id <= id
  {
    id := messages[0].id;
    assert messages[..1][..0] == [];
    for i := 1 to |messages|
      invariant id == LargestId(messages[..i])
      invariant exists m :: m in messages && m.id == id
      invariant forall m :: m in messages[..i] ==> m.id <= id
    {
      assert messages[..i + 1][..i] == messages[..i];
      if messages[i].id > id {
        id := messages[i].id;
      }
    }
    assert messages[..|messages|] == messages;
  }

  // Moving the checkpoint to the largest id of the listed batch extends what was fed by exactly that batch.
  lemma {:induction false} CheckpointMoves(messages: seq<Message>, user: string, session: string, after: nat, next: nat)
    requires Numbered(messages)
    requires forall m :: m in ListMessages(messages, user, session, after) ==> m.id <= next
    requires exists m :: m in ListMessages(messages, user, session, after) && m.id == next
    ensures after <= next <= |messages|
    ensures Batch(messages, user, session, 0, next)
         == Batch(messages, user, session, 0, after) + ListMessages(messages, user, session, after)
  {
    var end := |messages| + after;
    var listed := ListMessages(messages, user, session, after);
    ListingIsABatch(messages, user, session, after, end);
    var m :| m in listed && m.id == next;
    assert m in messages;
    BatchesJoin(messages, user, session, after, next, end);
    BatchesJoin(messages, user, session, 0, after, next);
    forall r | r in messages && r.user == user && r.session == session ensures !(next < r.id <= end) {
      if after < r.id <= end {
        assert r in Batch(messages, user, session, after, end);
      }
    }
    BatchIsEmpty(messages, user, session, next, end);
  }
}
