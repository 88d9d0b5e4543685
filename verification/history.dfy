/** A bounded LIFO that forgets its oldest entry when full
    (Assets/Scripts/Utility/HistoryStack.cs). */
module History {

  import Options

  /** `HistoryStack<T>`: `items` is `Items`, oldest first (the linked list's
      order); `capacity` is `Capacity`, a C# int fixed at construction. */
  datatype HistoryStack<T> = HistoryStack(items: seq<T>, capacity: int)

  /** The constructor: an empty stack. */
  function NewHistoryStack<T>(capacity: int): (s: HistoryStack<T>)
    ensures s.items == [] && s.capacity == capacity
  {
    HistoryStack([], capacity)
  }

  /** The bound holds: a capacity of at least one, and no more items than it. */
  predicate Bounded<T>(s: HistoryStack<T>) {
    1 <= s.capacity && |s.items| <= s.capacity
  }

  /** `Push` either returns the new stack or throws: with capacity zero the
      empty stack counts as full and `RemoveFirst` fails on the empty list. */
  datatype PushResult<T> = Pushed(stack: HistoryStack<T>) | RemoveFirstOnEmpty

  /** `Push`. */
  function Push<T>(s: HistoryStack<T>, item: T): (r: PushResult<T>)
    ensures r.RemoveFirstOnEmpty? <==> s.capacity == 0 && s.items == []
    ensures r.Pushed? ==> r.stack.capacity == s.capacity
    ensures r.Pushed? && |s.items| == s.capacity ==>
      |r.stack.items| == |s.items| && r.stack.items == s.items[1..] + [item]
    ensures |s.items| != s.capacity ==> r.Pushed? && r.stack.items == s.items + [item]
  {
    if |s.items| == s.capacity then
      if s.items == [] then RemoveFirstOnEmpty
      else Pushed(s.(items := s.items[1..] + [item]))
    else Pushed(s.(items := s.items + [item]))
  }

  /** The outcome of `Pop`: the item returned (`None` for `default`) and the
      stack left behind. */
  datatype Popped<T> = Popped(item: Options.Option<T>, stack: HistoryStack<T>)

  /** `Pop`. */
  function Pop<T>(s: HistoryStack<T>): (r: Popped<T>)
    ensures s.items == [] ==> r.item.None? && r.stack == s
    ensures s.items != [] ==>
      && r.item == Options.Some(s.items[|s.items| - 1])
      && r.stack.items + [r.item.value] == s.items
      && r.stack.capacity == s.capacity
  {
    if s.items == [] then Popped(Options.None, s)
    else Popped(Options.Some(s.items[|s.items| - 1]), s.(items := s.items[..|s.items| - 1]))
  }

  /** A push keeps a bounded stack bounded. */
  lemma PushKeepsBound<T>(s: HistoryStack<T>, item: T)
    requires Bounded(s)
    ensures Push(s, item).Pushed? && Bounded(Push(s, item).stack)
    ensures |Push(s, item).stack.items| == if |s.items| < s.capacity then |s.items| + 1 else |s.items|
  {
  }

  /** A pop undoes a push that did not overflow. */
  lemma PushThenPop<T>(s: HistoryStack<T>, item: T)
    requires |s.items| != s.capacity
    ensures Push(s, item).Pushed?
    ensures Pop(Push(s, item).stack) == Popped(Options.Some(item), s)
  {
    var t := Push(s, item).stack;
    assert t.items[..|t.items| - 1] == s.items;
  }

  /** On a bounded stack, full or not, the item just pushed is the one the
      next pop returns. */
  lemma PopAfterPush<T>(s: HistoryStack<T>, item: T)
    requires Bounded(s)
    ensures Push(s, item).Pushed?
    ensures Pop(Push(s, item).stack).item == Options.Some(item)
  {
  }

  /** Pushes `xs` in order onto a bounded stack. */
  function PushAll<T>(s: HistoryStack<T>, xs: seq<T>): (r: HistoryStack<T>)
    requires Bounded(s)
    ensures Bounded(r) && r.capacity == s.capacity
    decreases |xs|
  {
    if xs == [] then s
    else
      var prev := PushAll(s, xs[..|xs| - 1]);
      PushKeepsBound(prev, xs[|xs| - 1]);
      Push(prev, xs[|xs| - 1]).stack
  }

  /** After any pushes, the stack holds exactly the most recent
      `capacity` entries of everything it has seen, oldest first. */
  lemma {:induction false} PushAllKeepsNewest<T>(s: HistoryStack<T>, xs: seq<T>)
    requires Bounded(s)
    ensures var all := s.items + xs;
      PushAll(s, xs).items == all[if |all| <= s.capacity then 0 else |all| - s.capacity..]
    decreases |xs|
  {
    if xs != [] {
      var front := xs[..|xs| - 1];
      PushAllKeepsNewest(s, front);
      var all' := s.items + front;
      var all := s.items + xs;
      assert all == all' + [xs[|xs| - 1]];
      var prev := PushAll(s, front);
      if |all'| < s.capacity {
        assert prev.items == all';
      } else {
        assert all'[|all'| - s.capacity..][1..] + [xs[|xs| - 1]] == all[|all| - s.capacity..];
      }
    }
  }
}
