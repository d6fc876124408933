/** The reference-counted lifecycle of a RenderBuffer, as values.
    A wrapper's state is its reference count and its destroyed flag;
    `Add` and `Dec` are what addRefCount and decRefCount do to that state,
    `StepCalls` the context calls each issues, and `Run`/`Trace` extend
    both to any sequence of operations. */
module Lifecycle {
  import opened Gl

  datatype Wrapper = Wrapper(refCount: int, destroyed: bool)

  datatype Op = AddRef | DecRef

  /** The state the constructor leaves behind. */
  const Fresh: Wrapper := Wrapper(0, false)

  /** valid(): the wrapper has not been destroyed. */
  predicate Live(w: Wrapper) {
    !w.destroyed
  }

  /** addRefCount(): count one more reference, only while live. */
  function Add(w: Wrapper): (r: Wrapper)
    ensures Live(r) == Live(w)
    ensures Live(w) ==> r.refCount == w.refCount + 1
    ensures !Live(w) ==> r == w
  {
    if Live(w) then w.(refCount := w.refCount + 1) else w
  }

  /** Whether decRefCount() on `w` deletes the GPU renderbuffer: the
      wrapper is live and the decremented count is at most zero. */
  predicate DecDeletes(w: Wrapper) {
    Live(w) && w.refCount - 1 <= 0
  }

  /** decRefCount(): on a live wrapper, drop one reference and become
      destroyed exactly when the new count is at most zero. */
  function Dec(w: Wrapper): (r: Wrapper)
    ensures Live(w) ==> r.refCount == w.refCount - 1
    ensures Live(w) ==> (r.destroyed <==> r.refCount <= 0)
    ensures !Live(w) ==> r == w
  {
    if Live(w) then Wrapper(w.refCount - 1, DecDeletes(w)) else w
  }

  function Step(w: Wrapper, op: Op): Wrapper {
    match op
    case AddRef => Add(w)
    case DecRef => Dec(w)
  }

  /** The context calls one operation issues for the renderbuffer `h`. */
  function StepCalls(w: Wrapper, op: Op, h: Handle): (calls: seq<Call>)
    ensures calls != [] <==> op == DecRef && Live(w) && w.refCount - 1 <= 0
    ensures forall c :: c in calls ==> c == Call.DeleteRenderbuffer(h)
    ensures |calls| <= 1
  {
    if op == DecRef && DecDeletes(w) then [Call.DeleteRenderbuffer(h)] else []
  }

  /** The state after running `ops` from `w`. */
  function Run(w: Wrapper, ops: seq<Op>): Wrapper
    decreases |ops|
  {
    if ops == [] then w else Run(Step(w, ops[0]), ops[1..])
  }

  /** The context calls issued while running `ops` from `w`. */
  function Trace(w: Wrapper, ops: seq<Op>, h: Handle): seq<Call>
    decreases |ops|
  {
    if ops == [] then [] else StepCalls(w, ops[0], h) + Trace(Step(w, ops[0]), ops[1..], h)
  }

  /** `n` copies of `op`. */
  function Repeat(op: Op, n: nat): (ops: seq<Op>)
    ensures |ops| == n
    ensures forall i :: 0 <= i < n ==> ops[i] == op
  {
    if n == 0 then [] else [op] + Repeat(op, n - 1)
  }

  /** Once destroyed, every further operation changes nothing and issues
      no context call. */
  lemma {:induction false} DestroyedIsFinal(w: Wrapper, ops: seq<Op>, h: Handle)
    requires w.destroyed
    ensures Run(w, ops) == w
    ensures Trace(w, ops, h) == []
    decreases |ops|
  {
    if ops != [] {
      DestroyedIsFinal(Step(w, ops[0]), ops[1..], h);
    }
  }

  /** Running two sequences one after the other is running their
      concatenation, and the calls issued are concatenated too. */
  lemma {:induction false} RunConcat(w: Wrapper, a: seq<Op>, b: seq<Op>, h: Handle)
    ensures Run(w, a + b) == Run(Run(w, a), b)
    ensures Trace(w, a + b, h) == Trace(w, a, h) + Trace(Run(w, a), b, h)
    decreases |a|
  {
    if a == [] {
      assert a + b == b;
    } else {
      assert (a + b)[0] == a[0];
      assert (a + b)[1..] == a[1..] + b;
      RunConcat(Step(w, a[0]), a[1..], b, h);
    }
  }

  /** The destroyed flag is monotone: once some prefix of an operation
      sequence has destroyed the wrapper, every longer prefix leaves it
      destroyed, at the same count. */
  lemma DestroyedMonotone(w: Wrapper, ops: seq<Op>, i: nat, j: nat, h: Handle)
    requires i <= j <= |ops|
    requires Run(w, ops[..i]).destroyed
    ensures Run(w, ops[..j]) == Run(w, ops[..i])
    ensures Trace(w, ops[..j], h) == Trace(w, ops[..i], h)
  {
    assert ops[..j] == ops[..i] + ops[i..j];
    RunConcat(w, ops[..i], ops[i..j], h);
    DestroyedIsFinal(Run(w, ops[..i]), ops[i..j], h);
  }

  /** Over any sequence of operations the only call issued is one
      deleteRenderbuffer, and it is issued exactly when the sequence takes
      a live wrapper to destroyed. */
  lemma {:induction false} TraceIsSingleDelete(w: Wrapper, ops: seq<Op>, h: Handle)
    ensures Trace(w, ops, h) ==
      if Live(w) && Run(w, ops).destroyed then [Call.DeleteRenderbuffer(h)] else []
    decreases |ops|
  {
    if ops != [] {
      var w' := Step(w, ops[0]);
      if !Live(w) {
        DestroyedIsFinal(w, ops, h);
      } else if w'.destroyed {
        DestroyedIsFinal(w', ops[1..], h);
      } else {
        TraceIsSingleDelete(w', ops[1..], h);
      }
    }
  }

  /** deleteRenderbuffer is issued at most once per wrapper, whatever the
      operations, and never once the wrapper is destroyed. */
  lemma {:induction false} DeleteAtMostOnce(w: Wrapper, ops: seq<Op>, h: Handle)
    ensures |Trace(w, ops, h)| <= 1
    ensures forall c :: c in Trace(w, ops, h) ==> c == Call.DeleteRenderbuffer(h)
    ensures w.destroyed ==> Trace(w, ops, h) == []
  {
    TraceIsSingleDelete(w, ops, h);
  }

  /** `n` addRefCount calls on a live wrapper raise its count by `n` and
      issue no call. */
  lemma {:induction false} AddsRaiseCount(c: int, n: nat, h: Handle)
    ensures Run(Wrapper(c, false), Repeat(AddRef, n)) == Wrapper(c + n, false)
    ensures Trace(Wrapper(c, false), Repeat(AddRef, n), h) == []
    decreases n
  {
    if n > 0 {
      AddsRaiseCount(c + 1, n - 1, h);
    }
  }

  /** While fewer decRefCount calls than the count have been made, the
      wrapper stays live with the count lowered by the number of calls. */
  lemma {:induction false} DecsBelowCountKeepAlive(c: int, k: nat, h: Handle)
    requires k < c
    ensures Run(Wrapper(c, false), Repeat(DecRef, k)) == Wrapper(c - k, false)
    ensures Trace(Wrapper(c, false), Repeat(DecRef, k), h) == []
    decreases k
  {
    if k > 0 {
      DecsBelowCountKeepAlive(c - 1, k - 1, h);
    }
  }

  /** Follows by extensionality from Repeat's length and element contract. */
  lemma RepeatConcat(op: Op, a: nat, b: nat)
    ensures Repeat(op, a + b) == Repeat(op, a) + Repeat(op, b)
  {
  }

  /** Fresh, then `n` addRefCount calls, then `k < n` decRefCount calls:
      the wrapper is still live, holds `n - k` references, and nothing has
      been deleted. */
  lemma SurvivesFewerDecs(n: nat, k: nat, h: Handle)
    requires k < n
    ensures Run(Fresh, Repeat(AddRef, n) + Repeat(DecRef, k)) == Wrapper(n - k, false)
    ensures Trace(Fresh, Repeat(AddRef, n) + Repeat(DecRef, k), h) == []
  {
    RunConcat(Fresh, Repeat(AddRef, n), Repeat(DecRef, k), h);
    AddsRaiseCount(0, n, h);
    DecsBelowCountKeepAlive(n, k, h);
  }

  /** Fresh, then `n` addRefCount calls: the `n`-th decRefCount deletes the
      renderbuffer (the first one when `n` is zero, since the count then
      drops to -1), and issues the one and only deleteRenderbuffer. */
  lemma DeletedOnLastDec(n: nat, h: Handle)
    ensures var m := if n == 0 then 1 else n;
      Run(Fresh, Repeat(AddRef, n) + Repeat(DecRef, m)) == Wrapper(n - m, true) &&
      Trace(Fresh, Repeat(AddRef, n) + Repeat(DecRef, m), h) == [Call.DeleteRenderbuffer(h)]
  {
    var m := if n == 0 then 1 else n;
    var adds := Repeat(AddRef, n);
    AddsRaiseCount(0, n, h);
    RepeatConcat(DecRef, m - 1, 1);
    assert adds + Repeat(DecRef, m) == (adds + Repeat(DecRef, m - 1)) + [DecRef];
    RunConcat(Fresh, adds, Repeat(DecRef, m - 1), h);
    RunConcat(Fresh, adds + Repeat(DecRef, m - 1), [DecRef], h);
    if n > 0 {
      DecsBelowCountKeepAlive(n, m - 1, h);
    }
  }
}
