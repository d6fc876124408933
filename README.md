# gl-fbo: the RenderBuffer reference-counted lifecycle

This project models the one piece of working logic in gl-fbo's `fbo.js`:
the `RenderBuffer` wrapper around a WebGL renderbuffer. A wrapper records
its width, height and storage format, and holds a reference count and a
destroyed flag. `addRefCount` raises the count while the wrapper is live.
`decRefCount` lowers it, and when the new count is at most zero it deletes
the GPU renderbuffer and marks the wrapper destroyed for good. `valid`
reports whether the wrapper is still live.

In this revision of `fbo.js`, `FrameBuffer`, `createFBO` and
`getDefaultFBO` are empty stubs, so only `RenderBuffer` is modelled.

Files:

- `gl.dfy` (module `Gl`) is the WebGL context, kept abstract. It hands
  out renderbuffer handles it never handed out before. It keeps a ghost
  log of the calls issued to it: `createRenderbuffer`, `bindRenderbuffer`,
  `renderbufferStorage` and `deleteRenderbuffer`. It also holds the WebGL
  1.0 enumerants `RENDERBUFFER` (0x8D41) and `RGBA4` (0x8056).
- `lifecycle.dfy` (module `Lifecycle`) states the lifecycle on values.
  `Add` and `Dec` are what the two methods do to (count, destroyed).
  `StepCalls` gives the context calls each one issues. `Run` and `Trace`
  extend both to any sequence of operations. The lemmas cover that
  destruction is final and monotone, that at most one delete is issued,
  and the exact point at which the wrapper dies.
- `fbo.dfy` (module `Fbo`) has the `RenderBuffer` class. Its fields are
  updated in place, and each method's contract ties the new state and the
  new context log to `Lifecycle`. It also has `Drive`, a caller that issues
  an arbitrary sequence of `addRefCount`/`decRefCount` calls on one
  wrapper. `Drive` carries the sequence lemmas over to the object.
- `wrappers.dfy` (module `Wrappers`) has `Option`, used for the optional
  `storage_format` argument.

## Model

| member | source | states |
|---|---|---|
| `Gl.Context.CreateRenderbuffer` | fbo.js:29 | the handle returned was never handed out before and is now issued; exactly one `createRenderbuffer` call is appended to the log |
| `Gl.Context.BindRenderbuffer` | fbo.js:30 | appends exactly one `bindRenderbuffer(target, h)` call to the log; nothing else changes |
| `Gl.Context.RenderbufferStorage` | fbo.js:31 | appends exactly one `renderbufferStorage(target, format, width, height)` call to the log; nothing else changes |
| `Gl.Context.DeleteRenderbuffer` | fbo.js:46 | appends exactly one `deleteRenderbuffer(h)` call to the log; nothing else changes |
| `Fbo.StorageFormatFor` | fbo.js:26 | `storage_format \|\| gl.RGBA4`: the requested format when it is truthy (given and non-zero), otherwise RGBA4; never the falsy 0 |
| `Fbo.RenderBuffer.constructor` | fbo.js:22-32 | width and height are stored unchanged and the format is chosen as above; the wrapper starts with count 0, not destroyed, so it is live; on a fresh handle the context receives exactly createRenderbuffer, bindRenderbuffer(RENDERBUFFER, buffer), renderbufferStorage(RENDERBUFFER, format, width, height), in that order |
| `Fbo.RenderBuffer.Valid` | fbo.js:34-36 | returns true exactly when the wrapper is not destroyed, and changes no state |
| `Fbo.RenderBuffer.AddRefCount` | fbo.js:38-42 | the new state is `Lifecycle.Add` of the old one: count + 1 while live, nothing changed once destroyed; only the count may change; no context call is issued |
| `Fbo.RenderBuffer.DecRefCount` | fbo.js:44-49 | the new state is `Lifecycle.Dec` of the old one; the context receives one `deleteRenderbuffer(buffer)` exactly when the wrapper was live and the decremented count is at most 0, and nothing otherwise |
| `Fbo.Drive` | fbo.js:38-49 | after any sequence of addRefCount/decRefCount calls, the wrapper is in the state `Lifecycle.Run` predicts; the context received exactly `Lifecycle.Trace`, which is at most one call |
| `Lifecycle.Live` | fbo.js:34-36 | `valid()` on values: a wrapper is live exactly when it is not destroyed |
| `Lifecycle.StepCalls` | fbo.js:45-46 | the calls one operation issues: `[deleteRenderbuffer(h)]` exactly when the operation is decRefCount and the wrapper is live with count - 1 <= 0, else `[]`; never more than one call, and never anything but that delete |
| `Lifecycle.Add` | fbo.js:38-42 | liveness is unchanged; a live count rises by one; a destroyed wrapper is returned as it was |
| `Lifecycle.Dec` | fbo.js:44-49 | a live count drops by one, and the wrapper becomes destroyed if and only if the new count is at most 0; a destroyed wrapper is returned as it was |
| `Lifecycle.DestroyedIsFinal` | fbo.js:38-49 | from a destroyed state, any sequence of operations leaves the state unchanged and issues no context call (the `valid()` guard short-circuits) |
| `Lifecycle.DestroyedMonotone` | fbo.js:44-49 | once a prefix of an operation sequence has destroyed the wrapper, every longer prefix gives the same state and the same calls: the destroyed flag never goes back to false |
| `Lifecycle.TraceIsSingleDelete` | fbo.js:44-49 | over any sequence of operations, the calls issued are exactly one `deleteRenderbuffer(buffer)` if the sequence takes a live wrapper to destroyed, and none otherwise |
| `Lifecycle.DeleteAtMostOnce` | fbo.js:45-47 | at most one call is issued per wrapper over any sequence, and it can only be `deleteRenderbuffer(buffer)`; none is issued once the wrapper is destroyed |
| `Lifecycle.AddsRaiseCount` | fbo.js:38-42 | n addRefCount calls on a live wrapper raise its count by n, keep it live and issue no call |
| `Lifecycle.DecsBelowCountKeepAlive` | fbo.js:44-49 | k decRefCount calls on a live wrapper with count c > k leave it live with count c - k, and issue no call |
| `Lifecycle.SurvivesFewerDecs` | fbo.js:27-49 | fresh, then n addRefCount calls, then k < n decRefCount calls: still live, n - k references, nothing deleted |
| `Lifecycle.DeletedOnLastDec` | fbo.js:27-49 | fresh, then n addRefCount calls: the n-th decRefCount (the first when n = 0, which leaves the count at -1) destroys the wrapper and issues the single deleteRenderbuffer |

## Left out

- `TextureBuffer` (fbo.js:4-17): its constructor never sets `ref_count` or `destroyed`. So `valid()` is always true (`!undefined`), and `addRefCount` turns `undefined` into `NaN`. Neither is modelled.
- `FrameBuffer`, `FrameBuffer.prototype.bind`, `createFBO`, `getDefaultFBO` (fbo.js:54-69): their bodies are empty, apart from one `createFramebuffer` call, so there is nothing to specify.
- `example/example.js` is a render-loop demo that uses the library; it is not part of this model.
- What the GPU does with renderbuffer storage, and whether a given format is legal, is the context's business. The context is only a handle allocator plus a call log.
- `createRenderbuffer` returning `null`, for example after losing the context, is not modelled. Handles are always issued.
- `ref_count` is an unbounded integer. JavaScript numbers are doubles and count exactly only up to 2^53.
- `storage_format` is modelled as an optional integer. A missing or null argument and 0 are falsy. Other falsy JavaScript values (`false`, `""`, `NaN`) are not modelled.
- Width and height are stored and passed on as given. JavaScript does no validation here, and neither does the model.
