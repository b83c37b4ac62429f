/** The iterator over the tree's live pairs, and the scans it is used for. */
module Iterators {
  import opened Base
  import opened Messages
  import opened PlainMaps
  import opened Trees
  import opened Stores
  import opened Reading
  import opened Scanning
  import opened Betrees

  class Iterator {
    const bet: Betree
    var position: Entry
    var isValid: bool
    var posIsValid: bool
    var first: Key
    var second: Value
    /** Everything up to here has been folded in. */
    ghost var passed: Option<MessageKey>

    ghost predicate Valid()
      reads this, bet
    {
      && bet.Valid()
      && IsNext(All(bet.tree), passed, Next())
      && Unsplit(All(bet.tree), passed)
    }

    ghost function Next(): Option<Entry>
      reads this
    {
      if posIsValid then Some(position) else None
    }

    ghost function Current(): Option<Value>
      reads this
    {
      if isValid then Some(second) else None
    }

    /** The pair the iterator stands at, having been moved on from `start`. */
    ghost predicate Yields(start: Option<MessageKey>)
      reads this, bet
    {
      YieldsFrom(All(bet.tree), start, passed, Current(), first) && (!isValid ==> !posIsValid)
    }

    constructor (bet: Betree, from: Option<MessageKey>)
      requires bet.Valid() && Unsplit(All(bet.tree), from)
      ensures Valid() && this.bet == bet && Yields(from)
    {
      this.bet := bet;
      position := Entry(MessageKey(0, 0), Message(INSERT, Default));
      isValid, posIsValid := false, false;
      first, second := 0, Default;
      passed := from;
      new;
      var p := bet.GetNextMessage(bet.root, from, bet.tree, bet.height, Open, Open);
      if p.Some? {
        position := p.value;
        posIsValid := true;
        SetupNextElement();
      } else {
        NothingYields(All(bet.tree), from, first);
      }
    }

    /** Folds one message into the current pair. */
    method Apply(e: Entry)
      modifies this`first, this`second, this`isValid
      ensures Current() == Step(old(Current()), e.msg)
      ensures isValid ==> first == e.mkey.key
    {
      match e.msg.opcode
      case INSERT =>
        first := e.mkey.key;
        second := e.msg.val;
        isValid := true;
      case UPDATE =>
        first := e.mkey.key;
        if !isValid {
          second := Default;
        }
        second := Plus(second, e.msg.val);
        isValid := true;
      case DELETE =>
        isValid := false;
    }

    method SetupNextElement()
      requires Valid()
      modifies this
      ensures Valid() && Yields(old(passed))
      ensures Coming(All(bet.tree), passed) <= Coming(All(bet.tree), old(passed))
      ensures isValid ==> Coming(All(bet.tree), passed) < Coming(All(bet.tree), old(passed))
    {
      hide Coming, IsNext, Ordered, Before, Eval, Rep, Reached, YieldsFrom, Unsplit;
      ghost var s, start, moved := All(bet.tree), passed, false;
      isValid := false;
      while posIsValid && (!isValid || position.mkey.key == first)
        invariant bet.Valid() && IsNext(s, passed, Next())
        invariant !moved ==> passed == start && !isValid
        invariant moved ==> passed.Some? && Reached(s, start, passed.value, Current())
        invariant moved && isValid ==> first == passed.value.key
        invariant Coming(s, passed) <= Coming(s, start)
        invariant moved ==> Coming(s, passed) < Coming(s, start)
        decreases Coming(s, passed)
      {
        var e := position;
        if moved {
          ReachNext(s, start, passed.value, Current(), e);
        } else {
          ReachFirst(s, start, e);
        }
        ComingShrinks(s, passed, e);
        Apply(e);
        passed, moved := Some(e.mkey), true;
        var p := bet.GetNextMessage(bet.root, Some(e.mkey), bet.tree, bet.height, Open, Open);
        if p.Some? {
          position := p.value;
        } else {
          posIsValid := false;
        }
      }
      if moved {
        ReachYields(s, start, passed.value, Current(), Next(), first);
      } else {
        NothingYields(s, start, first);
      }
    }
  }

  /** Runs an iterator from `from` to the end and lists the pairs it stands at. */
  method Scan(bet: Betree, from: Option<MessageKey>) returns (ps: Pairs)
    requires bet.Valid() && Unsplit(All(bet.tree), from)
    ensures IsScan(All(bet.tree), from, ps)
  {
    hide Rep, IsNext, Unsplit, YieldsFrom, Collected, IsScan, LiveAfter;
    ghost var s := All(bet.tree);
    var it := new Iterator(bet, from);
    ps := [];
    CollectStart(s, from, it.passed, it.Current(), it.first);
    while it.isValid
      invariant fresh(it) && it.bet == bet && it.Valid()
      invariant Collected(s, from, ps, it.passed, it.Current(), it.first)
      invariant !it.isValid ==> !it.posIsValid
      decreases Coming(s, it.passed), it.isValid
    {
      ghost var c, v, k := it.passed, it.second, it.first;
      ps := ps + [(it.first, it.second)];
      it.SetupNextElement();
      CollectNext(s, from, ps[..|ps| - 1], c, v, k, it.passed, it.Current(), it.first);
    }
    CollectEnd(s, from, ps, it.passed, it.first);
  }

  lemma {:induction false} NothingYields(s: seq<Entry>, c: Option<MessageKey>, first: Key)
    requires IsNext(s, c, None)
    ensures YieldsFrom(s, c, c, None, first)
  {
  }
}
