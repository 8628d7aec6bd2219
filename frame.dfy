/**
 * What one call of `Drawer::draw` issues for the command list nuklear
 * produced (src/lib.rs:156-205): commands are walked in order, empty ones
 * are skipped, and each other one resolves its texture and becomes one
 * draw over the next `elem_count` indices of the shared index buffer. A
 * failing `unwrap` aborts the frame; the draws issued before it stand.
 */
module Frame {
  import opened Wrappers
  import opened Registry
  import opened Scissoring

  /** A draw command: element count (u32), clip rectangle and texture handle id. */
  datatype Command = Command(elemCount: nat, clip: ClipRect, texture: Option<int>)

  /**
   * One issued draw: the index range `[first, end)`, the registry position
   * of the bound texture, its sampler and the scissor rectangle.
   */
  datatype DrawRecord = DrawRecord(first: nat, end: nat, entryIndex: nat, sampler: SamplerPolicy, scissor: Rect)

  datatype DrawError =
    | MissingTextureId                            // `cmd.texture().id()` is None
    | UnknownTexture(id: int)                     // `find_tex_entry(id)` is None
    | IndexRangeOutOfBounds(first: nat, end: nat) // `ebo.slice(first..end)` is None

  /** The draws issued, in order, and the error that aborted the frame, if any. */
  datatype FrameResult = FrameResult(draws: seq<DrawRecord>, error: Option<DrawError>)

  /** Per-frame inputs: content scale, framebuffer height, length of the GPU index buffer. */
  datatype FrameParams = FrameParams(scale: Scale, height: nat, indexCapacity: nat)

  datatype Step = Issue(record: DrawRecord) | Abort(error: DrawError)

  /** The command names a texture the registry holds. */
  predicate Resolves(c: Command, tex: seq<Entry>)
  {
    c.texture.Some? && FindTexEntry(tex, c.texture.value).Some?
  }

  /**
   * One non-empty command with the cursor at `first`: it is drawn exactly
   * when its texture resolves and its index range fits the index buffer,
   * and then the draw covers the next `elemCount` indices with that
   * registry entry, its sampler and the command's scissor rectangle.
   */
  function Dispatch(c: Command, tex: seq<Entry>, p: FrameParams, first: nat): (s: Step)
    ensures s.Issue? <==> Resolves(c, tex) && first + c.elemCount <= p.indexCapacity
    ensures s.Issue? ==>
      && s.record.first == first && s.record.end == first + c.elemCount
      && s.record.entryIndex < |tex| && c.texture == Some(s.record.entryIndex + 1)
      && s.record.sampler == SamplerFor(tex[s.record.entryIndex])
      && s.record.scissor == ScissorAsWritten(c.clip, p.scale, p.height)
    ensures s.Abort? && c.texture.None? ==> s.error == MissingTextureId
    ensures s.Abort? && c.texture.Some? && !Resolves(c, tex) ==> s.error == UnknownTexture(c.texture.value)
    ensures s.Abort? && Resolves(c, tex) ==> s.error == IndexRangeOutOfBounds(first, first + c.elemCount)
  {
    match c.texture
    case None => Abort(MissingTextureId)
    case Some(id) =>
      match FindTexEntry(tex, id)
      case None => Abort(UnknownTexture(id))
      case Some(entry) =>
        var end := first + c.elemCount;
        if end > p.indexCapacity then Abort(IndexRangeOutOfBounds(first, end))
        else Issue(DrawRecord(first, end, id - 1, SamplerFor(entry), ScissorAsWritten(c.clip, p.scale, p.height)))
  }

  /** The frame issued by the commands `cmds` with the cursor starting at `first`. */
  function Run(cmds: seq<Command>, tex: seq<Entry>, p: FrameParams, first: nat): FrameResult
    decreases |cmds|
  {
    if cmds == [] then FrameResult([], None)
    else if cmds[0].elemCount < 1 then Run(cmds[1..], tex, p, first)
    else
      match Dispatch(cmds[0], tex, p, first)
      case Abort(e) => FrameResult([], Some(e))
      case Issue(d) =>
        var rest := Run(cmds[1..], tex, p, d.end);
        FrameResult([d] + rest.draws, rest.error)
  }

  /** One step of `Run` at command `i`: an empty command is skipped, any other one is dispatched. */
  lemma RunStep(cmds: seq<Command>, i: nat, tex: seq<Entry>, p: FrameParams, first: nat)
    requires i < |cmds|
    ensures cmds[i].elemCount < 1 ==> Run(cmds[i..], tex, p, first) == Run(cmds[i + 1..], tex, p, first)
    ensures cmds[i].elemCount >= 1 && Dispatch(cmds[i], tex, p, first).Abort? ==>
      Run(cmds[i..], tex, p, first) == FrameResult([], Some(Dispatch(cmds[i], tex, p, first).error))
    ensures cmds[i].elemCount >= 1 && Dispatch(cmds[i], tex, p, first).Issue? ==>
      var d := Dispatch(cmds[i], tex, p, first).record;
      Run(cmds[i..], tex, p, first) == Then([d], Run(cmds[i + 1..], tex, p, d.end))
  {
  }

  /** Draws `ds` issued before the frame `r`. */
  function Then(ds: seq<DrawRecord>, r: FrameResult): FrameResult
  {
    FrameResult(ds + r.draws, r.error)
  }

  /** Sum of the element counts of the commands. */
  function SumCounts(cmds: seq<Command>): nat
  {
    if cmds == [] then 0 else cmds[0].elemCount + SumCounts(cmds[1..])
  }

  /** The commands with at least one element, in order. */
  function NonEmpty(cmds: seq<Command>): (r: seq<Command>)
    ensures forall c :: c in r <==> c in cmds && c.elemCount >= 1
    ensures |r| <= |cmds|
    ensures SumCounts(r) == SumCounts(cmds)
  {
    if cmds == [] then []
    else if cmds[0].elemCount < 1 then NonEmpty(cmds[1..])
    else [cmds[0]] + NonEmpty(cmds[1..])
  }

  /** Where the cursor stands after the draws `ds`, started at `first`. */
  function EndOf(ds: seq<DrawRecord>, first: nat): nat
  {
    if ds == [] then first else ds[|ds| - 1].end
  }

  /** Each range is non-empty and starts where the previous one ended, the first one at `first`. */
  predicate Contiguous(ds: seq<DrawRecord>, first: nat)
  {
    && (|ds| > 0 ==> ds[0].first == first)
    && (forall k :: 0 < k < |ds| ==> ds[k].first == ds[k - 1].end)
    && (forall k :: 0 <= k < |ds| ==> ds[k].first < ds[k].end)
  }

  lemma {:induction false} SumCountsAppend(s: seq<Command>, t: seq<Command>)
    ensures SumCounts(s + t) == SumCounts(s) + SumCounts(t)
    decreases |s|
  {
    if s != [] {
      assert (s + t)[1..] == s[1..] + t;
      SumCountsAppend(s[1..], t);
    } else {
      assert s + t == t;
    }
  }

  /**
   * The issued ranges are contiguous, follow command order from `first`,
   * and all lie inside the index buffer.
   */
  lemma {:induction false} RunIsContiguous(cmds: seq<Command>, tex: seq<Entry>, p: FrameParams, first: nat)
    ensures Contiguous(Run(cmds, tex, p, first).draws, first)
    ensures forall d :: d in Run(cmds, tex, p, first).draws ==> d.end <= p.indexCapacity
    decreases |cmds|
  {
    if cmds != [] {
      if cmds[0].elemCount < 1 {
        RunIsContiguous(cmds[1..], tex, p, first);
      } else {
        match Dispatch(cmds[0], tex, p, first)
        case Abort(e) =>
        case Issue(d) =>
          RunIsContiguous(cmds[1..], tex, p, d.end);
          var rest := Run(cmds[1..], tex, p, d.end).draws;
          var ds := [d] + rest;
          forall k | 1 <= k < |ds|
            ensures ds[k].first < ds[k].end && ds[k].first == ds[k - 1].end
          {
            assert ds[k] == rest[k - 1];
            assert rest[k - 1].first < rest[k - 1].end;
            if k == 1 {
              assert ds[0] == d && rest[0].first == d.end;
            } else {
              assert ds[k - 1] == rest[k - 2] && rest[k - 1].first == rest[k - 2].end;
            }
          }
          assert ds[0] == d && d.first == first && d.first < d.end;
      }
    }
  }

  /**
   * A frame issues at most one draw per command, and fewer when it aborts;
   * each draw is bound to a registry entry and covers indices at or past
   * `first`.
   */
  lemma {:induction false} RunBounds(cmds: seq<Command>, tex: seq<Entry>, p: FrameParams, first: nat)
    ensures var r := Run(cmds, tex, p, first);
      && |r.draws| <= |cmds|
      && (r.error.Some? ==> |r.draws| < |cmds|)
      && (forall d :: d in r.draws ==> first <= d.first && d.entryIndex < |tex|)
    decreases |cmds|
  {
    if cmds != [] {
      if cmds[0].elemCount < 1 {
        RunBounds(cmds[1..], tex, p, first);
      } else {
        match Dispatch(cmds[0], tex, p, first)
        case Abort(e) =>
        case Issue(d) =>
          RunBounds(cmds[1..], tex, p, d.end);
      }
    }
  }

  /** After a frame that completes, the cursor has advanced by the sum of all element counts. */
  lemma {:induction false} RunCursorIsSum(cmds: seq<Command>, tex: seq<Entry>, p: FrameParams, first: nat)
    ensures Run(cmds, tex, p, first).error.None? ==>
      EndOf(Run(cmds, tex, p, first).draws, first) == first + SumCounts(cmds)
    decreases |cmds|
  {
    if cmds != [] {
      if cmds[0].elemCount < 1 {
        RunCursorIsSum(cmds[1..], tex, p, first);
      } else {
        match Dispatch(cmds[0], tex, p, first)
        case Abort(e) =>
        case Issue(d) =>
          RunCursorIsSum(cmds[1..], tex, p, d.end);
      }
    }
  }

  /** Empty commands contribute nothing: the frame is that of the non-empty commands alone. */
  lemma {:induction false} RunSkipsEmpty(cmds: seq<Command>, tex: seq<Entry>, p: FrameParams, first: nat)
    ensures Run(cmds, tex, p, first) == Run(NonEmpty(cmds), tex, p, first)
    decreases |cmds|
  {
    if cmds != [] {
      if cmds[0].elemCount < 1 {
        RunSkipsEmpty(cmds[1..], tex, p, first);
      } else {
        var ne := NonEmpty(cmds);
        assert ne[0] == cmds[0] && ne[1..] == NonEmpty(cmds[1..]);
        match Dispatch(cmds[0], tex, p, first)
        case Abort(e) =>
        case Issue(d) =>
          RunSkipsEmpty(cmds[1..], tex, p, d.end);
      }
    }
  }

  /**
   * Draw `k` is the dispatch of the `k`-th non-empty command at the cursor
   * where draw `k` starts; the frame completes exactly when every non-empty
   * command is drawn; and when it aborts, the first non-empty command not
   * drawn is the one whose dispatch failed, with the frame's error.
   */
  lemma {:induction false} RunFollowsCommands(cmds: seq<Command>, tex: seq<Entry>, p: FrameParams, first: nat)
    ensures var r, ne := Run(cmds, tex, p, first), NonEmpty(cmds);
      && |r.draws| <= |ne|
      && (r.error.None? <==> |r.draws| == |ne|)
      && (forall k :: 0 <= k < |r.draws| ==> Dispatch(ne[k], tex, p, r.draws[k].first) == Issue(r.draws[k]))
      && (r.error.Some? ==> Dispatch(ne[|r.draws|], tex, p, EndOf(r.draws, first)) == Abort(r.error.value))
    decreases |cmds|
  {
    if cmds != [] {
      if cmds[0].elemCount < 1 {
        RunFollowsCommands(cmds[1..], tex, p, first);
      } else {
        var ne := NonEmpty(cmds);
        var ne' := NonEmpty(cmds[1..]);
        assert ne == [cmds[0]] + ne';
        match Dispatch(cmds[0], tex, p, first)
        case Abort(e) =>
        case Issue(d) =>
          RunFollowsCommands(cmds[1..], tex, p, d.end);
          FollowsAfterIssue(cmds[0], d, ne', Run(cmds[1..], tex, p, d.end), tex, p, first);
      }
    }
  }

  /** The inductive step of `RunFollowsCommands`: a draw issued in front of a frame that follows its commands. */
  lemma FollowsAfterIssue(c: Command, d: DrawRecord, ne': seq<Command>, rest: FrameResult, tex: seq<Entry>, p: FrameParams, first: nat)
    requires Dispatch(c, tex, p, first) == Issue(d)
    requires |rest.draws| <= |ne'| && (rest.error.None? <==> |rest.draws| == |ne'|)
    requires forall k :: 0 <= k < |rest.draws| ==> Dispatch(ne'[k], tex, p, rest.draws[k].first) == Issue(rest.draws[k])
    requires rest.error.Some? ==> Dispatch(ne'[|rest.draws|], tex, p, EndOf(rest.draws, d.end)) == Abort(rest.error.value)
    ensures var ds, ne := [d] + rest.draws, [c] + ne';
      && |ds| <= |ne|
      && (rest.error.None? <==> |ds| == |ne|)
      && (forall k :: 0 <= k < |ds| ==> Dispatch(ne[k], tex, p, ds[k].first) == Issue(ds[k]))
      && (rest.error.Some? ==> Dispatch(ne[|ds|], tex, p, EndOf(ds, first)) == Abort(rest.error.value))
  {
  }

  /**
   * A frame completes exactly when every non-empty command names a
   * registered texture and the element counts together fit the index buffer.
   */
  lemma {:induction false} RunCompletesIff(cmds: seq<Command>, tex: seq<Entry>, p: FrameParams, first: nat)
    requires first <= p.indexCapacity
    ensures Run(cmds, tex, p, first).error.None? <==>
      && (forall k :: 0 <= k < |cmds| && cmds[k].elemCount >= 1 ==> Resolves(cmds[k], tex))
      && first + SumCounts(cmds) <= p.indexCapacity
    decreases |cmds|
  {
    if cmds != [] {
      var tail := cmds[1..];
      assert forall k :: 1 <= k < |cmds| ==> cmds[k] == tail[k - 1];
      assert SumCounts(cmds) == cmds[0].elemCount + SumCounts(tail);
      var allResolve := forall k :: 0 <= k < |cmds| && cmds[k].elemCount >= 1 ==> Resolves(cmds[k], tex);
      var tailResolve := forall k :: 0 <= k < |tail| && tail[k].elemCount >= 1 ==> Resolves(tail[k], tex);
      if cmds[0].elemCount < 1 {
        RunCompletesIff(tail, tex, p, first);
        assert allResolve <==> tailResolve;
      } else {
        assert allResolve <==> Resolves(cmds[0], tex) && tailResolve;
        match Dispatch(cmds[0], tex, p, first)
        case Abort(e) =>
          assert !Resolves(cmds[0], tex) || first + cmds[0].elemCount > p.indexCapacity;
        case Issue(d) =>
          RunCompletesIff(tail, tex, p, d.end);
      }
    }
  }

  /**
   * When the element counts fit the index buffer, no index range is ever
   * out of bounds: only an unresolved texture can abort the frame.
   */
  lemma {:induction false} RunNeverOverrunsWhenCountsFit(cmds: seq<Command>, tex: seq<Entry>, p: FrameParams, first: nat)
    requires first + SumCounts(cmds) <= p.indexCapacity
    ensures Run(cmds, tex, p, first).error.Some? ==> !Run(cmds, tex, p, first).error.value.IndexRangeOutOfBounds?
    decreases |cmds|
  {
    if cmds != [] {
      if cmds[0].elemCount < 1 {
        RunNeverOverrunsWhenCountsFit(cmds[1..], tex, p, first);
      } else {
        RunNeverOverrunsWhenCountsFit(cmds[1..], tex, p, first + cmds[0].elemCount);
      }
    }
  }

  /** An empty command list issues no draw and raises no error. */
  lemma EmptyFrameDrawsNothing(tex: seq<Entry>, p: FrameParams, first: nat)
    ensures Run([], tex, p, first) == FrameResult([], None)
  {
  }

  /**
   * Element counts `[0, 6, 0, 12]` with a registered texture give exactly
   * two draws, over `[0, 6)` and `[6, 18)`.
   */
  lemma {:induction false} CursorExample(tex: seq<Entry>, p: FrameParams, clip: ClipRect)
    requires |tex| >= 1 && p.indexCapacity >= 18
    ensures var cmds := [Command(0, clip, Some(1)), Command(6, clip, Some(1)),
                         Command(0, clip, Some(1)), Command(12, clip, Some(1))];
      var r := Run(cmds, tex, p, 0);
      && r.error.None? && |r.draws| == 2
      && r.draws[0].first == 0 && r.draws[0].end == 6
      && r.draws[1].first == 6 && r.draws[1].end == 18
  {
    var cmds := [Command(0, clip, Some(1)), Command(6, clip, Some(1)),
                 Command(0, clip, Some(1)), Command(12, clip, Some(1))];
    var smp, sc := SamplerFor(tex[0]), ScissorAsWritten(clip, p.scale, p.height);
    var d1, d2 := DrawRecord(0, 6, 0, smp, sc), DrawRecord(6, 18, 0, smp, sc);
    assert cmds[3..][1..] == [];
    assert Run(cmds[3..], tex, p, 6) == FrameResult([d2], None);
    assert cmds[2..][1..] == cmds[3..];
    assert Run(cmds[2..], tex, p, 6) == FrameResult([d2], None);
    assert cmds[1..][1..] == cmds[2..];
    assert Run(cmds[1..], tex, p, 0) == FrameResult([d1, d2], None);
  }
}
