/** JavaScript `Set`s and `Map` key lists iterate in insertion order: a
    sequence without repetitions, where `add` appends a new element at the
    end, `add` of a present element changes nothing, and `delete` takes the
    element out and keeps the order of the rest. */
module OrderedSets {

  predicate NoDup<T(==)>(s: seq<T>)
  {
    forall i, j :: 0 <= i < j < |s| ==> s[i] != s[j]
  }

  /** `Set.prototype.add` (and the key list of `Map.prototype.set`). */
  function Add<T(==)>(s: seq<T>, x: T): (r: seq<T>)
    ensures x in r
    ensures forall i :: 0 <= i < |s| ==> s[i] in r
    ensures forall i :: 0 <= i < |r| ==> r[i] in s || r[i] == x
  {
    if x in s then s else s + [x]
  }

  /** `Set.prototype.delete`. */
  function Delete<T(==)>(s: seq<T>, x: T): (r: seq<T>)
    ensures x !in r
    ensures forall i :: 0 <= i < |s| && s[i] != x ==> s[i] in r
    ensures forall i :: 0 <= i < |r| ==> r[i] in s
    ensures |r| <= |s|
  {
    if |s| == 0 then []
    else
      var rest := Delete(s[1..], x);
      assert forall i :: 1 <= i < |s| ==> s[i] == s[1..][i - 1];
      if s[0] == x then rest else [s[0]] + rest
  }

  /** `Array.prototype.indexOf`: the first position holding x, or -1. */
  function IndexOf<T(==)>(s: seq<T>, x: T): (r: int)
    ensures -1 <= r < |s|
    ensures r == -1 <==> x !in s
    ensures 0 <= r ==> s[r] == x && x !in s[..r]
  {
    if |s| == 0 then -1
    else if s[0] == x then 0
    else
      var k := IndexOf(s[1..], x);
      assert x in s ==> x in s[1..];
      if k == -1 then -1
      else
        assert s[..k + 1] == [s[0]] + s[1..][..k];
        k + 1
  }

  lemma AddKeepsNoDup<T>(s: seq<T>, x: T)
    requires NoDup(s)
    ensures NoDup(Add(s, x))
  {
  }

  lemma {:induction false} DeleteKeepsNoDup<T>(s: seq<T>, x: T)
    requires NoDup(s)
    ensures NoDup(Delete(s, x))
  {
    if |s| > 0 {
      assert NoDup(s[1..]) by {
        forall i, j | 0 <= i < j < |s[1..]| ensures s[1..][i] != s[1..][j] {
          assert s[1..][i] == s[i + 1] && s[1..][j] == s[j + 1];
        }
      }
      DeleteKeepsNoDup(s[1..], x);
      var rest := Delete(s[1..], x);
      if s[0] != x {
        assert s[0] !in rest;
        var r := [s[0]] + rest;
        forall i, j | 0 <= i < j < |r| ensures r[i] != r[j] {
          if i == 0 {
            assert r[j] == rest[j - 1];
          } else {
            assert r[i] == rest[i - 1] && r[j] == rest[j - 1];
          }
        }
      }
    }
  }

  /** Deleting an element that is absent changes nothing. */
  lemma {:induction false} DeleteAbsent<T>(s: seq<T>, x: T)
    requires x !in s
    ensures Delete(s, x) == s
  {
    if |s| > 0 {
      assert x !in s[1..];
      DeleteAbsent(s[1..], x);
      assert [s[0]] + s[1..] == s;
    }
  }

  /** `delete` after `add` of a new element restores the old order. */
  lemma DeleteUndoesAdd<T>(s: seq<T>, x: T)
    requires x !in s
    ensures Delete(Add(s, x), x) == s
  {
    DeleteAfterAppend(s, x);
  }

  lemma {:induction false} DeleteAfterAppend<T>(s: seq<T>, x: T)
    requires x !in s
    ensures Delete(s + [x], x) == s
  {
    if |s| == 0 {
      assert Delete([x], x) == Delete([x][1..], x);
    } else {
      assert (s + [x])[0] == s[0];
      assert (s + [x])[1..] == s[1..] + [x];
      assert x !in s[1..];
      DeleteAfterAppend(s[1..], x);
      assert [s[0]] + s[1..] == s;
    }
  }

  /** A second `add` of the same element changes nothing. */
  lemma AddIsIdempotent<T>(s: seq<T>, x: T)
    ensures Add(Add(s, x), x) == Add(s, x)
  {
  }

  /** In a sequence without repetitions, `indexOf` finds each element at
      its own position. */
  lemma {:induction false} IndexOfAt<T>(s: seq<T>, i: int)
    requires NoDup(s) && 0 <= i < |s|
    ensures IndexOf(s, s[i]) == i
  {
    var k := IndexOf(s, s[i]);
    assert s[k] == s[i];
    assert k <= i by {
      assert s[..i + 1][i] == s[i];
    }
  }

  /** `add` appends: old elements keep their positions and a new one goes
      last. */
  lemma AddKeepsPositions<T>(s: seq<T>, x: T, y: T)
    requires y in s
    ensures IndexOf(Add(s, x), y) == IndexOf(s, y)
  {
    if x !in s {
      var k := IndexOf(s, y);
      var r := s + [x];
      assert r[k] == y && r[..k] == s[..k];
      assert r[k] == y && r[..k] == s[..k];
    }
  }

  lemma AddNewGoesLast<T>(s: seq<T>, x: T)
    requires x !in s
    ensures IndexOf(Add(s, x), x) == |s|
  {
    var r := s + [x];
    assert r[..|s|] == s;
  }

  /** Adding the elements of a sequence without repetitions one by one
      rebuilds it. */
  lemma AddExtendsPrefix<T>(s: seq<T>, k: int)
    requires NoDup(s) && 0 <= k < |s|
    ensures Add(s[..k], s[k]) == s[..k + 1]
  {
    assert s[..k + 1] == s[..k] + [s[k]];
  }

  /** `new Set(array)`: the elements of the array in first-occurrence
      order, each once. */
  function FromSeq<T(==)>(xs: seq<T>): (r: seq<T>)
    ensures NoDup(r)
    ensures forall i :: 0 <= i < |xs| ==> xs[i] in r
    ensures forall i :: 0 <= i < |r| ==> r[i] in xs
  {
    if |xs| == 0 then []
    else
      var init := FromSeq(xs[..|xs| - 1]);
      AddKeepsNoDup(init, xs[|xs| - 1]);
      assert forall i :: 0 <= i < |xs| - 1 ==> xs[i] == xs[..|xs| - 1][i];
      Add(init, xs[|xs| - 1])
  }

  /** A registry of listeners per event name, each list an insertion-ordered
      set (the `Map` of `Set`s behind `on`, `off` and `emit`). */
  type Registry<T> = map<string, seq<T>>

  /** The listeners `emit` would call, in the order they are called. */
  function ListenersOf<T>(m: Registry<T>, event: string): seq<T>
  {
    if event in m then m[event] else []
  }

  /** `on`: create the set when the event is new, then add the listener. */
  function Subscribe<T(==)>(m: Registry<T>, event: string, cb: T): (r: Registry<T>)
  {
    m[event := Add(ListenersOf(m, event), cb)]
  }

  /** `off`: delete the listener from an existing set; an unknown event is
      skipped and no set is created. */
  function Unsubscribe<T(==)>(m: Registry<T>, event: string, cb: T): (r: Registry<T>)
  {
    if event in m then m[event := Delete(m[event], cb)] else m
  }

  /** `on` appends a new listener after those already registered, keeps a
      registered one in its place, and touches no other event. */
  lemma SubscribeAppends<T>(m: Registry<T>, event: string, cb: T, other: string)
    ensures cb in ListenersOf(m, event) ==> ListenersOf(Subscribe(m, event, cb), event) == ListenersOf(m, event)
    ensures cb !in ListenersOf(m, event) ==> ListenersOf(Subscribe(m, event, cb), event) == ListenersOf(m, event) + [cb]
    ensures other != event ==> ListenersOf(Subscribe(m, event, cb), other) == ListenersOf(m, other)
  {
  }

  /** After `off` the listener is not called for that event, and the other
      listeners keep their order and every other event is untouched. */
  lemma UnsubscribeRemoves<T>(m: Registry<T>, event: string, cb: T, other: string)
    ensures cb !in ListenersOf(Unsubscribe(m, event, cb), event)
    ensures ListenersOf(Unsubscribe(m, event, cb), event) == Delete(ListenersOf(m, event), cb)
    ensures other != event ==> ListenersOf(Unsubscribe(m, event, cb), other) == ListenersOf(m, other)
  {
  }

  /** `off` after `on` of a new listener calls the same listeners as before,
      for every event. */
  lemma UnsubscribeUndoesSubscribe<T>(m: Registry<T>, event: string, cb: T, e: string)
    requires cb !in ListenersOf(m, event)
    ensures ListenersOf(Unsubscribe(Subscribe(m, event, cb), event, cb), e) == ListenersOf(m, e)
  {
    if e == event {
      DeleteUndoesAdd(ListenersOf(m, event), cb);
    }
  }
}
