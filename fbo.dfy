/** The RenderBuffer wrapper of fbo.js: a GPU renderbuffer together with a
    reference count and a destroyed flag. Its methods are proved against the
    value-level lifecycle in module Lifecycle. */
module Fbo {
  import opened Wrappers
  import opened Gl
  import opened Lifecycle

  /** JavaScript truthiness of an optional GL enumerant: a left-out or
      null argument and the number 0 are falsy. */
  predicate Truthy(arg: Option<int>) {
    arg.Some? && arg.value != 0
  }

  /** `storage_format || gl.RGBA4`: the format asked for when it is truthy,
      and RGBA4 otherwise. */
  function StorageFormatFor(requested: Option<int>): (format: int)
    ensures Truthy(requested) ==> format == requested.value
    ensures !Truthy(requested) ==> format == RGBA4
    ensures format != 0
  {
    if Truthy(requested) then requested.value else RGBA4
  }

  class RenderBuffer {
    const context: Context
    const width: int
    const height: int
    const storageFormat: int
    const buffer: Handle
    var refCount: int
    var destroyed: bool

    /** The lifecycle state of this wrapper. */
    ghost function State(): Wrapper
      reads this
    {
      Wrapper(refCount, destroyed)
    }

    /** new RenderBuffer(gl, width, height, storage_format): record the
        shape and format, start live with no references, and issue exactly
        createRenderbuffer, bindRenderbuffer and renderbufferStorage, in
        that order, for a handle the context never handed out before. */
    constructor (gl: Context, width: int, height: int, requestedFormat: Option<int>)
      modifies gl
      ensures context == gl
      ensures this.width == width && this.height == height
      ensures storageFormat == StorageFormatFor(requestedFormat)
      ensures State() == Fresh && refCount == 0 && !destroyed
      ensures var h := buffer; !old(gl.Issued(h)) && gl.Issued(h)
      ensures gl.log == old(gl.log) + [
        Call.CreateRenderbuffer(buffer),
        Call.BindRenderbuffer(RENDERBUFFER, buffer),
        Call.RenderbufferStorage(RENDERBUFFER, storageFormat, width, height)]
    {
      context := gl;
      this.width := width;
      this.height := height;
      storageFormat := StorageFormatFor(requestedFormat);
      refCount := 0;
      destroyed := false;
      var b := gl.CreateRenderbuffer();
      buffer := b;
      gl.BindRenderbuffer(RENDERBUFFER, b);
      gl.RenderbufferStorage(RENDERBUFFER, StorageFormatFor(requestedFormat), width, height);
    }

    /** valid(): whether the wrapper is still live; changes nothing. */
    method Valid() returns (live: bool)
      ensures live <==> !destroyed
      ensures live == Live(State())
    {
      live := !destroyed;
    }

    /** addRefCount(): one more reference while live, a no-op once
        destroyed; never issues a context call. */
    method AddRefCount()
      modifies this`refCount
      ensures State() == Add(old(State()))
      ensures context.log == old(context.log)
    {
      var live := Valid();
      if live {
        refCount := refCount + 1;
      }
    }

    /** decRefCount(): on a live wrapper drop one reference, and when the
        new count is at most zero delete the renderbuffer and become
        destroyed; a no-op once destroyed. */
    method DecRefCount()
      modifies this`refCount, this`destroyed, context`log
      ensures State() == Dec(old(State()))
      ensures context.log == old(context.log) + StepCalls(old(State()), DecRef, buffer)
    {
      var live := Valid();
      if live {
        refCount := refCount - 1;
        if refCount <= 0 {
          context.DeleteRenderbuffer(buffer);
          destroyed := true;
        }
      }
    }
  }

  /** A caller that issues any sequence of addRefCount/decRefCount calls on
      one wrapper. The wrapper ends in the state Lifecycle.Run predicts and
      the context receives exactly Lifecycle.Trace, so by
      Lifecycle.DeleteAtMostOnce at most one deleteRenderbuffer. */
  method Drive(rb: RenderBuffer, ops: seq<Op>)
    modifies rb`refCount, rb`destroyed, rb.context`log
    ensures rb.State() == Run(old(rb.State()), ops)
    ensures rb.context.log == old(rb.context.log) + Trace(old(rb.State()), ops, rb.buffer)
    ensures |rb.context.log| <= |old(rb.context.log)| + 1
  {
    ghost var start := rb.State();
    ghost var log0 := rb.context.log;
    var i := 0;
    while i < |ops|
      invariant 0 <= i <= |ops|
      invariant rb.State() == Run(start, ops[..i])
      invariant rb.context.log == log0 + Trace(start, ops[..i], rb.buffer)
    {
      ghost var before := rb.State();
      ghost var logBefore := rb.context.log;
      match ops[i] {
        case AddRef => rb.AddRefCount();
        case DecRef => rb.DecRefCount();
      }
      assert rb.State() == Run(before, [ops[i]]);
      assert rb.context.log == logBefore + Trace(before, [ops[i]], rb.buffer);
      assert ops[..i + 1] == ops[..i] + [ops[i]];
      RunConcat(start, ops[..i], [ops[i]], rb.buffer);
      i := i + 1;
    }
    assert ops[..i] == ops;
    DeleteAtMostOnce(start, ops, rb.buffer);
  }
}
