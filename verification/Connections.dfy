// One connection's flow control: frames wait at wire size, a window of requests is
// answered at once, and replies are written one at a time in completion order.
module Connections {
  import opened Wrappers
  import Bytes

  type Frame = seq<Bytes.Byte>

  // Where the write at the head of the chain is: not begun, parked on `drain`, or
  // woken and about to be counted as over.
  datatype Stage = Idle | Parked | Woken

  datatype State = State(
    window: nat,
    waiting: seq<Frame>,    // parsed, not dispatched
    answering: seq<Frame>,  // dispatched, no reply yet
    writing: seq<Frame>,    // reply produced, not yet handed over
    stage: Stage,
    inflight: int,
    congested: bool,
    paused: bool,
    stopped: bool)

  // ---------- the handlers, on values ----------

  // How many waiting frames may be dispatched now.
  function Room(s: State): (n: nat)
    ensures n <= |s.waiting|
  {
    if s.stopped || s.congested || s.inflight >= s.window then 0 else Min(s.window - s.inflight, |s.waiting|)
  }

  predicate Full(s: State) { s.congested || s.inflight >= s.window || s.waiting != [] }

  // As many frames as fit go out, oldest first; reading goes on only with room left.
  function Pumped(s: State): State
  {
    var n := Room(s);
    var t := s.(waiting := s.waiting[n..], answering := s.answering + s.waiting[..n], inflight := s.inflight + n);
    if s.stopped then t else t.(paused := Full(t))
  }

  function Fed(s: State, frames: seq<Frame>): State
  {
    if s.stopped then s else Pumped(s.(waiting := s.waiting + frames))
  }

  function Answered(s: State, i: nat): State
    requires i < |s.answering|
  {
    s.(answering := s.answering[..i] + s.answering[i + 1..], writing := s.writing + [s.answering[i]])
  }

  // The head of the chain is over, whatever became of its reply.
  function Sent(s: State): State
    requires s.writing != []
  {
    Pumped(s.(writing := s.writing[1..], stage := Idle, inflight := s.inflight - 1))
  }

  // The stream takes the reply and says it is full, or there is nothing to wait for.
  function Written(s: State, fits: bool): State
    requires s.writing != []
  {
    if fits || s.stopped then Sent(s) else s.(congested := true, paused := true, stage := Parked)
  }

  function Released(s: State): State { if s.stage.Parked? then s.(stage := Woken) else s }

  function Drained(s: State): State { Pumped(Released(s.(congested := false))) }

  function Closed(s: State): State { Released(s.(stopped := true, waiting := [])) }

  // ---------- the connection ----------

  class Connection {
    const window: nat
    var frames: seq<Frame>
    var answering: seq<Frame>
    var writing: seq<Frame>
    var stage: Stage
    var drainers: nat
    var inflight: int
    var congested: bool
    var paused: bool
    var stopped: bool

    ghost function Model(): State
      reads this
    {
      State(window, frames, answering, writing, stage, inflight, congested, paused, stopped)
    }

    // Whoever waits for `drain` is the write at the head of the chain.
    ghost predicate Valid()
      reads this
    {
      drainers == if stage.Parked? then 1 else 0
    }

    constructor (maxInFlight: int)
      ensures Valid() && Model() == START(if maxInFlight < 1 then 1 else maxInFlight)
    {
      window := if maxInFlight < 1 then 1 else maxInFlight;
      frames, answering, writing, stage, drainers := [], [], [], Idle, 0;
      inflight, congested, paused, stopped := 0, false, false, false;
    }

    method PauseReads()
      modifies this`paused
      ensures paused
    {
      if !paused { paused := true; }
    }

    method ResumeReads()
      modifies this`paused
      ensures !paused
    {
      if paused { paused := false; }
    }

    method Dispatch(frame: Frame)
      modifies this`inflight, this`answering
      ensures inflight == old(inflight) + 1 && answering == old(answering) + [frame]
    {
      inflight := inflight + 1;
      answering := answering + [frame];
    }

    method Pump()
      requires Valid()
      modifies this
      ensures Valid() && Model() == Pumped(old(Model()))
    {
      ghost var n: nat, k: nat := Room(Model()), 0;
      while !stopped && !congested && inflight < window && |frames| > 0
        invariant Valid() && k <= n && n == Room(old(Model()))
        invariant frames == old(frames)[k..] && answering == old(answering) + old(frames)[..k]
        invariant inflight == old(inflight) + k && n - k == Room(Model())
        invariant writing == old(writing) && stage == old(stage)
        invariant congested == old(congested) && paused == old(paused) && stopped == old(stopped)
        decreases |frames|
      {
        var frame := frames[0];
        frames := frames[1..];
        Dispatch(frame);
        assert old(frames)[..k] + [frame] == old(frames)[..k + 1];
        k := k + 1;
      }
      assert k == n;
      if stopped { return; }
      if congested || inflight >= window || |frames| > 0 { PauseReads(); } else { ResumeReads(); }
    }

    // One delivery from the stream, cut into the frames it completed; nothing when
    // it could not be cut, which ends the connection.
    method Feed(delivered: seq<Frame>, framed: bool)
      requires Valid()
      modifies this
      ensures Valid()
      ensures Model() == if framed || old(stopped) then Fed(old(Model()), delivered) else Closed(old(Model()))
    {
      if stopped { return; }
      if !framed {
        Close();
        return;
      }
      frames := frames + delivered;
      Pump();
    }

    // The session produced a reply: its write joins the end of the chain.
    method Produced(i: nat)
      requires Valid() && i < |answering|
      modifies this`answering, this`writing
      ensures Valid() && Model() == Answered(old(Model()), i)
    {
      writing := writing + [answering[i]];
      answering := answering[..i] + answering[i + 1..];
    }

    // The chain reaches a reply. `takes` is whether the stream accepts one at all,
    // `fits` what `write()` answers, `throws` whether it threw instead.
    method Send(reply: bool, takes: bool, fits: bool, throws: bool)
      requires Valid() && writing != [] && stage.Idle?
      modifies this
      ensures Valid()
      ensures Model() ==
              if old(stopped) || !reply || !takes then Sent(old(Model()))
              else if throws then Sent(Closed(old(Model())))
              else Written(old(Model()), fits)
    {
      if reply && !stopped && takes {
        if throws {
          Close();
        } else if !fits {
          congested := true;
          PauseReads();
          drainers, stage := drainers + 1, Parked;
          return;
        }
      }
      Finish();
    }

    // A woken write, and the end of every other one.
    method Finish()
      requires Valid() && writing != [] && !stage.Parked?
      modifies this
      ensures Valid() && Model() == Sent(old(Model()))
    {
      writing, stage := writing[1..], Idle;
      inflight := inflight - 1;
      Pump();
    }

    method Release()
      requires Valid()
      modifies this`stage, this`drainers
      ensures Valid() && Model() == Released(old(Model()))
    {
      if drainers > 0 { stage := Woken; }
      drainers := 0;
    }

    method Drain()
      requires Valid()
      modifies this
      ensures Valid() && Model() == Drained(old(Model()))
    {
      congested := false;
      Release();
      Pump();
    }

    method Close()
      requires Valid()
      modifies this
      ensures Valid() && Model() == Closed(old(Model()))
    {
      stopped := true;
      frames := [];
      Release();
    }
  }

  function START(window: nat): State { State(window, [], [], [], Idle, 0, false, false, false) }
}
