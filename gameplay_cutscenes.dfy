/** Cutscene playback: a timeline of cues played one after another, each
    held until its time has elapsed. */
module Cutscenes {
  import opened Base
  import opened GameTypes

  datatype Cue =
    | CameraTo(pos: Vec3, yaw: real, pitch: real, time: real)
    | Title(text: string, time: real)
    | Wait(time: real)

  datatype Timeline = Timeline(cues: seq<Cue>)

  /** The camera override a tick reports: position, yaw and pitch. */
  datatype Camera = Camera(pos: Vec3, yaw: real, pitch: real)

  /** What one tick reports: the camera override, the title text, and
      whether the timeline has finished. */
  datatype Frame = Frame(camera: Option<Camera>, text: Option<string>, done: bool)

  /** The playback position: the current cue and the time spent on it. */
  datatype Cursor = Cursor(idx: nat, t: real)

  /** The cursor after one tick: past the end nothing moves; otherwise the
      clock runs and, once it reaches the cue's time, playback moves to the
      next cue with a fresh clock. */
  function Advance(c: Cursor, dt: real, tl: Timeline): (r: Cursor)
    ensures c.idx >= |tl.cues| ==> r == c
    ensures c.idx < |tl.cues| ==>
      (r.idx == c.idx + 1 && r.t == 0.0 && c.t + dt >= tl.cues[c.idx].time)
      || (r.idx == c.idx && r.t == c.t + dt && c.t + dt < tl.cues[c.idx].time)
  {
    if c.idx >= |tl.cues| then c
    else if c.t + dt >= tl.cues[c.idx].time then Cursor(c.idx + 1, 0.0)
    else Cursor(c.idx, c.t + dt)
  }

  /** The report of one tick: the cue being played shows its camera or its
      title, and `done` says whether the cursor is now past the end. */
  function Report(c: Cursor, tl: Timeline): (f: Frame) {
    if c.idx >= |tl.cues| then Frame(None, None, true)
    else match tl.cues[c.idx]
      case CameraTo(pos, yaw, pitch, _) => Frame(Some(Camera(pos, yaw, pitch)), None, false)
      case Title(text, _) => Frame(None, Some(text), false)
      case Wait(_) => Frame(None, None, false)
  }

  /** The cursor after a sequence of ticks. */
  function Play(c: Cursor, dts: seq<real>, tl: Timeline): Cursor
    decreases |dts|
  {
    if dts == [] then c else Play(Advance(c, dts[0], tl), dts[1..], tl)
  }

  class CutsceneState {
    var idx: nat
    var t: real

    function Cur(): Cursor
      reads this
    {
      Cursor(idx, t)
    }

    /** `CutsceneState::new`: at the first cue with the clock at 0. */
    constructor ()
      ensures Cur() == Cursor(0, 0.0)
    {
      idx := 0;
      t := 0.0;
    }

    /** `tick`: reports the cue that was current when the tick began (its
        camera or title), and whether the timeline is finished after it. */
    method Tick(dt: real, tl: Timeline) returns (f: Frame)
      modifies this
      ensures Cur() == Advance(old(Cur()), dt, tl)
      ensures f.done <==> idx >= |tl.cues|
      ensures f.camera == Report(old(Cur()), tl).camera && f.text == Report(old(Cur()), tl).text
    {
      if idx >= |tl.cues| {
        return Frame(None, None, true);
      }
      t := t + dt;
      match tl.cues[idx]
      case CameraTo(pos, yaw, pitch, time) =>
        if t >= time {
          idx := idx + 1;
          t := 0.0;
          f := Frame(Some(Camera(pos, yaw, pitch)), None, idx >= |tl.cues|);
        } else {
          f := Frame(Some(Camera(pos, yaw, pitch)), None, false);
        }
      case Title(text, time) =>
        var done := t >= time;
        if done {
          idx := idx + 1;
          t := 0.0;
        }
        f := Frame(None, Some(text), idx >= |tl.cues|);
      case Wait(time) =>
        var done := t >= time;
        if done {
          idx := idx + 1;
          t := 0.0;
        }
        f := Frame(None, None, idx >= |tl.cues|);
    }
  }

  /** Playback never goes back and never skips a cue: each tick moves at
      most one cue forward, and never past the end. */
  lemma {:induction false} PlayMonotone(c: Cursor, dts: seq<real>, tl: Timeline)
    requires c.idx <= |tl.cues|
    ensures c.idx <= Play(c, dts, tl).idx <= |tl.cues|
    ensures Play(c, dts, tl).idx <= c.idx + |dts|
    decreases |dts|
  {
    if dts != [] {
      PlayMonotone(Advance(c, dts[0], tl), dts[1..], tl);
    }
  }

  /** A finished timeline stays finished and stands still. */
  lemma {:induction false} FinishedStaysFinished(c: Cursor, dts: seq<real>, tl: Timeline)
    requires c.idx >= |tl.cues|
    ensures Play(c, dts, tl) == c
    decreases |dts|
  {
    if dts != [] {
      FinishedStaysFinished(Advance(c, dts[0], tl), dts[1..], tl);
    }
  }

  /** With ticks at least as long as every cue, playback from a fresh clock
      moves one cue per tick: after n ticks it is n cues on, or finished. */
  lemma {:induction false} OneCuePerTick(c: Cursor, dts: seq<real>, tl: Timeline)
    requires c.t == 0.0 && c.idx <= |tl.cues|
    requires forall i, j :: 0 <= i < |tl.cues| && 0 <= j < |dts| ==> tl.cues[i].time <= dts[j]
    ensures Play(c, dts, tl).idx == Min(c.idx + |dts|, |tl.cues|)
    decreases |dts|
  {
    if dts != [] {
      var c1 := Advance(c, dts[0], tl);
      assert c.idx < |tl.cues| ==> c1 == Cursor(c.idx + 1, 0.0);
      if c.idx >= |tl.cues| {
        FinishedStaysFinished(c, dts, tl);
      } else {
        assert forall i, j :: 0 <= i < |tl.cues| && 0 <= j < |dts[1..]| ==> tl.cues[i].time <= dts[1..][j] by {
          forall i, j | 0 <= i < |tl.cues| && 0 <= j < |dts[1..]|
            ensures tl.cues[i].time <= dts[1..][j]
          {
            assert dts[1..][j] == dts[j + 1];
          }
        }
        OneCuePerTick(c1, dts[1..], tl);
      }
    }
  }
}
