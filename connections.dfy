/**
 * Connection handles as the server holds them in its connection table, the messages it sends
 * them, and the list operations behind broadcasting and pruning the table.
 */
module Connections {

  /**
   * A transport connection handle. `created` is the transport's `IsCreated`: false for
   * `default(NetworkConnection)`, which is what a disconnect leaves in the table.
   */
  datatype Connection = Connection(id: int, created: bool)

  /** `default(NetworkConnection)` */
  const Default: Connection := Connection(0, false)

  /** One `SendMessageToClient` call: the recipient and the text. */
  datatype Message = Message(recipient: Connection, text: string)

  /** One message with the same text to every connection, in the order given. */
  function Broadcast(connections: seq<Connection>, text: string): (r: seq<Message>)
    ensures |r| == |connections|
    ensures forall k :: 0 <= k < |r| ==> r[k] == Message(connections[k], text)
  {
    if connections == [] then []
    else Broadcast(connections[..|connections| - 1], text) + [Message(connections[|connections| - 1], text)]
  }

  /** Messages to one recipient, one per text, in order. */
  function Replies(to: Connection, texts: seq<string>): (r: seq<Message>)
    ensures |r| == |texts|
    ensures forall k :: 0 <= k < |r| ==> r[k] == Message(to, texts[k])
  {
    if texts == [] then [] else Replies(to, texts[..|texts| - 1]) + [Message(to, texts[|texts| - 1])]
  }

  /** Replying with `a` and then with `b` after `base` is replying with `a + b`. */
  lemma RepliesAppend(base: seq<Message>, to: Connection, a: seq<string>, b: seq<string>)
    ensures base + Replies(to, a) + Replies(to, b) == base + Replies(to, a + b)
  {
    assert Replies(to, a + b) == Replies(to, a) + Replies(to, b);
  }

  /**
   * `NativeList.RemoveAtSwapBack(i)`: the last element takes the place of element `i` and the
   * list shrinks by one; every other element keeps its place. The contents lose exactly one
   * copy of `s[i]`.
   */
  function RemoveAtSwapBack(s: seq<Connection>, i: nat): (r: seq<Connection>)
    requires i < |s|
    ensures |r| == |s| - 1
    ensures multiset(r) == multiset(s) - multiset{s[i]}
    ensures r[..i] == s[..i]
    ensures i < |r| ==> r[i] == s[|s| - 1]
    ensures i < |r| ==> r[i + 1..] == s[i + 1..|s| - 1]
  {
    SwapBackMultiset(s, i);
    if i == |s| - 1 then s[..i] else s[..i] + [s[|s| - 1]] + s[i + 1..|s| - 1]
  }

  lemma SwapBackMultiset(s: seq<Connection>, i: nat)
    requires i < |s|
    ensures i == |s| - 1 ==> multiset(s[..i]) == multiset(s) - multiset{s[i]}
    ensures i < |s| - 1 ==>
      multiset(s[..i] + [s[|s| - 1]] + s[i + 1..|s| - 1]) == multiset(s) - multiset{s[i]}
  {
    var last := |s| - 1;
    if i == last {
      assert s == s[..last] + [s[last]];
    } else {
      assert s == s[..i] + [s[i]] + s[i + 1..last] + [s[last]];
      MoveLastIntoGap(s[..i], s[i], s[i + 1..last], s[last]);
    }
  }

  /** Dropping `x` from `a x b y` and moving `y` into its place loses one `x` and nothing else. */
  lemma MoveLastIntoGap<T>(a: seq<T>, x: T, b: seq<T>, y: T)
    ensures multiset(a + [y] + b) == multiset(a + [x] + b + [y]) - multiset{x}
  {
    calc {
      multiset(a + [x] + b + [y]) - multiset{x};
      (multiset(a) + multiset{x} + multiset(b) + multiset{y}) - multiset{x};
      multiset(a) + multiset{y} + multiset(b);
      multiset(a + [y] + b);
    }
  }

  /** Every created handle occurs in `a` as often as in `b`. */
  ghost predicate SameCreated(a: seq<Connection>, b: seq<Connection>)
  {
    forall c: Connection :: c.created ==> multiset(a)[c] == multiset(b)[c]
  }

  /** Removing a handle that is no longer created keeps every created handle, as often as before. */
  lemma RemoveUncreatedKeepsCreated(s: seq<Connection>, i: nat, original: seq<Connection>)
    requires i < |s| && !s[i].created && SameCreated(s, original)
    ensures SameCreated(RemoveAtSwapBack(s, i), original)
  {
    var r := RemoveAtSwapBack(s, i);
    forall c: Connection | c.created ensures multiset(r)[c] == multiset(original)[c] {
      assert c != s[i];
    }
  }

  /** Removing entry `i` keeps the entries before it, so those already checked stay created. */
  lemma RemoveKeepsCheckedPrefix(s: seq<Connection>, i: nat)
    requires i < |s| && forall k :: 0 <= k < i ==> s[k].created
    ensures forall k :: 0 <= k < i ==> RemoveAtSwapBack(s, i)[k].created
  {
    var r := RemoveAtSwapBack(s, i);
    assert forall k :: 0 <= k < i ==> r[k] == r[..i][k];
  }

  /** The entries of the table that the transport still reports as created, in order. */
  function CreatedOnly(s: seq<Connection>): seq<Connection>
  {
    if s == [] then []
    else if s[0].created then [s[0]] + CreatedOnly(s[1..])
    else CreatedOnly(s[1..])
  }

  /** A table of created handles that keeps the created handles of `original` is `CreatedOnly(original)`, up to order. */
  lemma {:induction false} PrunedIsCreatedOnly(s: seq<Connection>, original: seq<Connection>)
    requires forall k :: 0 <= k < |s| ==> s[k].created
    requires SameCreated(s, original)
    ensures multiset(s) == multiset(CreatedOnly(original))
  {
    forall c: Connection ensures multiset(s)[c] == multiset(CreatedOnly(original))[c] {
      CreatedOnlyCount(original, c);
      if !c.created {
        assert c !in s;
      }
    }
  }

  /** Each created handle occurs in `CreatedOnly(s)` as often as in `s`; no other handle does. */
  lemma {:induction false} CreatedOnlyCount(s: seq<Connection>, c: Connection)
    ensures multiset(CreatedOnly(s))[c] == if c.created then multiset(s)[c] else 0
  {
    if s != [] {
      CreatedOnlyCount(s[1..], c);
      assert s == [s[0]] + s[1..];
    }
  }
}
