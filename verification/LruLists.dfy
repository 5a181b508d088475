/** The frames of a cache shard, and the doubly linked list they hang in. */
module LruLists {
  import opened Layout

  /** What a frame holds and how it stands. */
  datatype Held = Held(
    blockNo: nat, mapped: bool, dirty: bool, inTxn: bool, lsn: nat, version: nat, pins: nat, data: Block)

  const NOTHING: Held := Held(0, false, false, false, 0, 0, 0, ZERO_BLOCK)

  class Frame {
    var held: Held
    var prev: Frame?
    var next: Frame?

    constructor ()
      ensures held == NOTHING && prev == null && next == null
    {
      held, prev, next := NOTHING, null, null;
    }
  }

  /** No frame comes twice: folded, since two quantified places at once are costly. */
  ghost predicate Unique(s: seq<Frame>) {
    forall t :: t == s ==> UniqueIn(t)
  }

  ghost predicate UniqueIn(s: seq<Frame>) {
    forall i, k :: 0 <= i < k < |s| ==> s[i] != s[k]
  }

  lemma OnlyThere(s: seq<Frame>, k: nat)
    requires Unique(s) && k < |s|
    ensures forall i {:trigger s[i]} :: 0 <= i < |s| ==> (s[i] == s[k] <==> i == k)
  {
    assert UniqueIn(s);
  }

  lemma Beside(s: seq<Frame>, k: nat)
    requires Unique(s) && k < |s|
    ensures forall i {:trigger s[i]} :: 0 <= i < |s| ==> (s[i] == s[k] <==> i == k)
    ensures k > 0 ==> forall i {:trigger s[i]} :: 0 <= i < |s| ==> (s[i] == s[k - 1] <==> i == k - 1)
    ensures k + 1 < |s| ==> forall i {:trigger s[i]} :: 0 <= i < |s| ==> (s[i] == s[k + 1] <==> i == k + 1)
  {
    assert UniqueIn(s);
  }

  lemma UniqueWithout(s: seq<Frame>, k: nat)
    requires Unique(s) && k < |s|
    ensures Unique(Without(s, k)) && s[k] !in Without(s, k)
  {
    assert UniqueIn(s);
    var rest := Without(s, k);
    assert forall i :: 0 <= i < |rest| ==> rest[i] == s[if i < k then i else i + 1];
    assert UniqueIn(rest);
  }

  lemma UniqueMore(s: seq<Frame>, f: Frame)
    requires Unique(s) && f !in s
    ensures Unique([f] + s) && Unique(s + [f])
  {
    assert UniqueIn(s);
    assert UniqueIn([f] + s) && UniqueIn(s + [f]);
  }

  function Without(s: seq<Frame>, k: nat): seq<Frame>
    requires k < |s|
  {
    s[..k] + s[k + 1..]
  }

  /** The frame at place i, or none. */
  function At(order: seq<Frame>, i: int): Frame? {
    if 0 <= i < |order| then order[i] else null
  }

  /** The list from head to tail, by the frames' own pointers, is `order`. */
  ghost predicate Linked(head: Frame?, tail: Frame?, order: seq<Frame>)
    reads order`prev, order`next
  {
    && Unique(order)
    && head == At(order, 0) && tail == At(order, |order| - 1)
    && (forall i {:trigger order[i].prev} {:trigger order[i].next} :: 0 <= i < |order| ==>
          order[i].prev == At(order, i - 1) && order[i].next == At(order, i + 1))
  }

  /** The doubly linked list, most recently used first. */
  class LruList {
    var head: Frame?
    var tail: Frame?
    ghost var order: seq<Frame>

    ghost predicate Valid()
      reads this, order`prev, order`next
    {
      Linked(head, tail, order)
    }

    constructor ()
      ensures Valid() && order == []
    {
      head, tail, order := null, null, [];
    }

    /** Takes f out. */
    method Unlink(f: Frame, ghost k: nat)
      requires Valid() && k < |order| && order[k] == f
      modifies this, order`prev, order`next
      ensures Valid() && order == Without(old(order), k) && f !in order
      ensures f.prev == null && f.next == null
    {
      ghost var was, rest := order, Without(order, k);
      var p, n := f.prev, f.next;
      assert p == At(was, k - 1) && n == At(was, k + 1);
      Beside(was, k);
      UniqueWithout(was, k);
      if p != null {
        p.next := n;
      } else {
        head := n;
      }
      if n != null {
        n.prev := p;
      } else {
        tail := p;
      }
      f.prev, f.next := null, null;
      forall i {:trigger rest[i].prev} {:trigger rest[i].next} | 0 <= i < |rest|
        ensures rest[i].prev == At(rest, i - 1) && rest[i].next == At(rest, i + 1)
      {
        var j := if i < k then i else i + 1;
        assert rest[i] == was[j];
        assert old(was[j].prev) == At(was, j - 1) && old(was[j].next) == At(was, j + 1);
      }
      order := rest;
    }

    method PushFront(f: Frame)
      requires Valid() && f !in order
      modifies this, order`prev, order`next, f`prev, f`next
      ensures Valid() && order == [f] + old(order)
    {
      ghost var was, more := order, [f] + order;
      UniqueMore(was, f);
      if was != [] {
        OnlyThere(was, 0);
      }
      f.prev := null;
      f.next := head;
      if head != null {
        head.prev := f;
      } else {
        tail := f;
      }
      head := f;
      forall i {:trigger more[i].prev} {:trigger more[i].next} | 0 <= i < |more|
        ensures more[i].prev == At(more, i - 1) && more[i].next == At(more, i + 1)
      {
        if i > 0 {
          assert more[i] == was[i - 1];
          assert old(was[i - 1].prev) == At(was, i - 2) && old(was[i - 1].next) == At(was, i);
        }
      }
      order := more;
    }

    method PushBack(f: Frame)
      requires Valid() && f !in order
      modifies this, order`prev, order`next, f`prev, f`next
      ensures Valid() && order == old(order) + [f]
    {
      ghost var was, more := order, order + [f];
      UniqueMore(was, f);
      if was != [] {
        OnlyThere(was, |was| - 1);
      }
      f.next := null;
      f.prev := tail;
      if tail != null {
        tail.next := f;
      } else {
        head := f;
      }
      tail := f;
      forall i {:trigger more[i].prev} {:trigger more[i].next} | 0 <= i < |more|
        ensures more[i].prev == At(more, i - 1) && more[i].next == At(more, i + 1)
      {
        if i < |was| {
          assert more[i] == was[i];
          assert old(was[i].prev) == At(was, i - 1) && old(was[i].next) == At(was, i + 1);
        }
      }
      order := more;
    }
  }
}
