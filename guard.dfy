/**
 * `CtxGuard`: remembers the cursor offset at entry and, when its reset flag is set,
 * puts the cursor back there on drop. It is the engine's only means of rewinding.
 */
module Guard {
  import opened Errors
  import opened Spans
  import opened Cursor

  class CtxGuard {
    const ctx: RegexCtx
    /** The offset recorded at construction (`beg`). */
    const offset: nat
    var reset: bool

    ghost predicate Valid()
      reads this, ctx
    {
      ctx.Valid() && offset <= ctx.Len()
    }

    /** `new`: records the current offset; the reset flag starts cleared. */
    constructor (ctx: RegexCtx)
      requires ctx.Valid()
      ensures this.ctx == ctx && offset == ctx.offset && !reset
      ensures Valid()
    {
      this.ctx := ctx;
      offset := ctx.offset;
      reset := false;
    }

    function Beg(): nat
    {
      offset
    }

    /** `end`: where the cursor is now. */
    function End(): nat
      reads ctx
    {
      ctx.offset
    }

    /** `remaining_len`: the bytes from the entry offset to the end of the data. */
    function RemainingLen(): (n: nat)
      reads this, ctx
      requires Valid()
      ensures Beg() + n == ctx.Len()
    {
      ctx.Len() - offset
    }

    /** `inc`: the span (beg, len), with the cursor advanced by len. */
    method Inc(len: nat) returns (s: Span)
      requires Valid() && ctx.offset + len <= ctx.Len()
      modifies ctx
      ensures s.beg == offset && s.len == len
      ensures ctx.offset == old(ctx.offset) + len && ctx.dat == old(ctx.dat)
      ensures Valid()
    {
      s := Span(Beg(), len);
      ctx.Inc(len);
    }

    /** `reset`: back to the entry offset. */
    method Reset()
      requires Valid()
      modifies ctx
      ensures ctx.offset == offset && ctx.dat == old(ctx.dat)
      ensures Valid()
    {
      ctx.SetOffset(offset);
    }

    /** `process_ret`: passes the result through, marking the guard on an error. */
    method ProcessRet<R>(ret: Result<R>) returns (r: Result<R>)
      modifies this
      ensures r == ret
      ensures reset == (old(reset) || ret.Err?)
    {
      if ret.Err? {
        reset := true;
      }
      r := ret;
    }

    /** The bookkeeping of `try_mat`: a successful inner match clears the flag. */
    method NoteMatch(ret: Result<Span>)
      modifies this
      ensures reset == (ret.Err? && old(reset))
    {
      if ret.Ok? {
        reset := false;
      }
    }

    /** `drop`: restores the entry offset exactly when the flag is set. */
    method Drop()
      requires Valid()
      modifies ctx
      ensures ctx.offset == (if reset then offset else old(ctx.offset))
      ensures ctx.dat == old(ctx.dat)
      ensures Valid()
    {
      if reset {
        ctx.SetOffset(offset);
      }
    }
  }
}
