/** The part of a WebGL rendering context that a RenderBuffer talks to.
    The context is abstract: it hands out renderbuffer handles that were
    never handed out before, and keeps a ghost log of every call issued to
    it, so that contracts can say which calls happen and how often. What the
    GPU does with the storage is not modelled. */
module Gl {
  /** An opaque renderbuffer handle (a WebGLRenderbuffer object). */
  type Handle = nat

  /** WebGL 1.0 enumerants used by the wrapper. */
  const RENDERBUFFER: int := 0x8D41
  const RGBA4: int := 0x8056

  /** One call issued to the context. */
  datatype Call =
    | CreateRenderbuffer(created: Handle)
    | BindRenderbuffer(target: int, bound: Handle)
    | RenderbufferStorage(target: int, format: int, width: int, height: int)
    | DeleteRenderbuffer(deleted: Handle)

  class Context {
    /** The next handle the allocator will hand out. */
    var nextHandle: Handle
    /** Every call issued to this context, oldest first. */
    ghost var log: seq<Call>

    /** Whether `h` has been handed out by this context. */
    ghost predicate Issued(h: Handle)
      reads this
    {
      h < nextHandle
    }

    constructor ()
      ensures log == []
      ensures forall h: Handle :: !Issued(h)
    {
      nextHandle := 0;
      log := [];
    }

    /** gl.createRenderbuffer(): a handle never handed out before. */
    method CreateRenderbuffer() returns (h: Handle)
      modifies this
      ensures !old(Issued(h)) && Issued(h)
      ensures forall k: Handle :: Issued(k) <==> old(Issued(k)) || k == h
      ensures log == old(log) + [Call.CreateRenderbuffer(h)]
    {
      h := nextHandle;
      nextHandle := nextHandle + 1;
      log := log + [Call.CreateRenderbuffer(h)];
    }

    /** gl.bindRenderbuffer(target, h) */
    method BindRenderbuffer(target: int, h: Handle)
      modifies this`log
      ensures log == old(log) + [Call.BindRenderbuffer(target, h)]
    {
      log := log + [Call.BindRenderbuffer(target, h)];
    }

    /** gl.renderbufferStorage(target, format, width, height) */
    method RenderbufferStorage(target: int, format: int, width: int, height: int)
      modifies this`log
      ensures log == old(log) + [Call.RenderbufferStorage(target, format, width, height)]
    {
      log := log + [Call.RenderbufferStorage(target, format, width, height)];
    }

    /** gl.deleteRenderbuffer(h) */
    method DeleteRenderbuffer(h: Handle)
      modifies this`log
      ensures log == old(log) + [Call.DeleteRenderbuffer(h)]
    {
      log := log + [Call.DeleteRenderbuffer(h)];
    }
  }
}
