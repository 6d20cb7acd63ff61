/**
 * The recording lifecycle shared by every page: a click on "start" creates a
 * fresh audio context and asks for the microphone; once the device is granted
 * the block buffer is reset, a processor delivers blocks into it and the
 * `recording` flag becomes true; "stop" disconnects the processor and encodes
 * the buffer. Device requests resolve asynchronously, so they are events of
 * their own. Nothing rejects a second start: the flag is set only after the
 * device request resolves.
 */
module Capture {
  import opened Base
  import SampleBuffer
  import WavEncoder

  datatype Recorder = Recorder(
    recording: bool,          // the page's `recording` state flag
    pending: nat,             // microphone requests not yet resolved
    live: bool,               // a processor is connected and delivering blocks
    blocks: seq<seq<real>>,   // the block buffer, in delivery order
    sampleRate: Option<nat>)  // rate of the most recently created audio context

  const Initial: Recorder := Recorder(false, 0, false, [], None)

  datatype Event =
    | RequestStart(contextRate: nat)  // start clicked: new audio context, microphone requested
    | DeviceGranted                   // the microphone request resolved
    | DeviceDenied                    // the microphone request rejected
    | Deliver(block: seq<real>)       // one audio-process callback
    | Stop                            // stop clicked

  /** Device completions only answer an outstanding request. */
  predicate Possible(r: Recorder, e: Event)
  {
    (e.DeviceGranted? || e.DeviceDenied?) ==> r.pending > 0
  }

  /** An audio context exists whenever anything depends on one. */
  predicate Valid(r: Recorder)
  {
    r.sampleRate.None? ==> !r.recording && !r.live && r.pending == 0
  }

  function Step(r: Recorder, e: Event): (r': Recorder)
    requires Possible(r, e)
    ensures Valid(r) ==> Valid(r')
    ensures e.RequestStart? ==> r'.recording == r.recording && r'.live == r.live && r'.blocks == r.blocks
    ensures e.RequestStart? ==> r'.sampleRate == Some(e.contextRate) && r'.pending == r.pending + 1
    ensures e.DeviceGranted? ==> r'.recording && r'.live && r'.blocks == []
    ensures e.DeviceDenied? ==> r'.recording == r.recording && r'.live == r.live && r'.blocks == r.blocks
    ensures e.Deliver? ==> r'.blocks == (if r.live then r.blocks + [e.block] else r.blocks)
    ensures e.Deliver? ==> r'.recording == r.recording && r'.live == r.live
    ensures e.Stop? ==> !r'.live && r'.blocks == r.blocks
    ensures e.Stop? && r.sampleRate.Some? ==> !r'.recording
  {
    match e
    case RequestStart(rate) => r.(pending := r.pending + 1, sampleRate := Some(rate))
    case DeviceGranted => r.(pending := r.pending - 1, blocks := [], live := true, recording := true)
    case DeviceDenied => r.(pending := r.pending - 1)
    case Deliver(b) => if r.live then r.(blocks := r.blocks + [b]) else r
    case Stop =>
      // Without an audio context the non-null assertion throws before the flag is cleared.
      if r.sampleRate.None? then r.(live := false) else r.(live := false, recording := false)
  }

  /** The recording handed out by stop: the buffer as it stood, flattened and encoded. */
  function StopOutput(r: Recorder): (wav: Option<seq<Byte>>)
    ensures wav.Some? <==> r.sampleRate.Some?
    ensures wav.Some? ==> |wav.value| == WavEncoder.HeaderSize + 2 * SampleBuffer.TotalLength(r.blocks)
  {
    match r.sampleRate
    case None => None
    case Some(rate) => Some(WavEncoder.ExportWav(r.blocks, rate))
  }

  // ---------------------------------------------------------------------
  // Event traces
  // ---------------------------------------------------------------------

  predicate Feasible(r: Recorder, evs: seq<Event>)
    decreases |evs|, 0
  {
    |evs| == 0 || (Feasible(r, evs[..|evs| - 1]) && Possible(Run(r, evs[..|evs| - 1]), evs[|evs| - 1]))
  }

  function Run(r: Recorder, evs: seq<Event>): Recorder
    requires Feasible(r, evs)
    decreases |evs|, 1
  {
    if |evs| == 0 then r else Step(Run(r, evs[..|evs| - 1]), evs[|evs| - 1])
  }

  /** The controls: start is disabled while recording, stop while not recording. */
  predicate UiEnabled(r: Recorder, e: Event)
  {
    match e
    case RequestStart(_) => !r.recording
    case Stop => r.recording
    case _ => true
  }

  /** Every click in the trace was on an enabled control. */
  predicate UiDriven(r: Recorder, evs: seq<Event>)
    requires Feasible(r, evs)
  {
    |evs| == 0 || (UiDriven(r, evs[..|evs| - 1]) && UiEnabled(Run(r, evs[..|evs| - 1]), evs[|evs| - 1]))
  }

  /** The events that set or clear the recording flag, in order. */
  function FlagEvents(evs: seq<Event>): (p: seq<Event>)
    ensures forall i :: 0 <= i < |p| ==> p[i].DeviceGranted? || p[i].Stop?
  {
    if |evs| == 0 then []
    else
      var last := evs[|evs| - 1];
      FlagEvents(evs[..|evs| - 1]) + (if last.DeviceGranted? || last.Stop? then [last] else [])
  }

  /** Validity holds after any feasible trace from a valid state. */
  lemma {:induction false} RunValid(r: Recorder, evs: seq<Event>)
    requires Valid(r) && Feasible(r, evs)
    ensures Valid(Run(r, evs))
  {
    if |evs| > 0 {
      RunValid(r, evs[..|evs| - 1]);
    }
  }

  /**
   * With the controls disabled as the page renders them, the flag is set
   * exactly when the last flag event was a grant, and every stop directly
   * follows a grant: two stops never occur without a successful start in
   * between. Two grants may follow each other (a second click before the
   * first request resolves), since nothing rejects a busy start.
   */
  lemma {:induction false} UiStopsFollowGrants(r: Recorder, evs: seq<Event>)
    requires Valid(r) && !r.recording
    requires Feasible(r, evs) && UiDriven(r, evs)
    ensures Run(r, evs).recording <==> |FlagEvents(evs)| > 0 && FlagEvents(evs)[|FlagEvents(evs)| - 1].DeviceGranted?
    ensures forall i :: 0 <= i < |FlagEvents(evs)| && FlagEvents(evs)[i].Stop? ==>
              i > 0 && FlagEvents(evs)[i - 1].DeviceGranted?
  {
    if |evs| > 0 {
      var pre := evs[..|evs| - 1];
      UiStopsFollowGrants(r, pre);
      RunValid(r, pre);
    }
  }

  /**
   * Whatever the clicks, and with no guard on the controls, the flag is set
   * only by a grant: a trace that starts with the flag cleared and ends with
   * it set contains a DeviceGranted event.
   */
  lemma {:induction false} FlagNeedsGrant(r: Recorder, evs: seq<Event>)
    requires Feasible(r, evs) && !r.recording
    ensures Run(r, evs).recording ==> exists i :: 0 <= i < |evs| && evs[i].DeviceGranted?
  {
    if |evs| > 0 && Run(r, evs).recording {
      var pre := evs[..|evs| - 1];
      if evs[|evs| - 1].DeviceGranted? {
        assert evs[|evs| - 1].DeviceGranted?;
      } else {
        assert Run(r, pre).recording;
        FlagNeedsGrant(r, pre);
        var i :| 0 <= i < |pre| && pre[i].DeviceGranted?;
        assert evs[i] == pre[i];
      }
    }
  }

  /** A second grant while recording discards the blocks captured so far. */
  lemma BusyStartDiscardsCapture(r: Recorder)
    requires r.recording && r.pending > 0 && |r.blocks| > 0
    ensures Step(r, DeviceGranted).recording
    ensures Step(r, DeviceGranted).blocks == []
  {
  }

  function Deliveries(bs: seq<seq<real>>): (evs: seq<Event>)
    ensures |evs| == |bs|
    ensures forall i :: 0 <= i < |bs| ==> evs[i] == Deliver(bs[i])
  {
    seq(|bs|, i requires 0 <= i < |bs| => Deliver(bs[i]))
  }

  /** While a processor is live, each delivered block is appended at the end of the buffer. */
  lemma {:induction false} DeliveriesAppend(r: Recorder, bs: seq<seq<real>>)
    requires r.live
    ensures Feasible(r, Deliveries(bs))
    ensures Run(r, Deliveries(bs)) == r.(blocks := r.blocks + bs)
  {
    if |bs| > 0 {
      var init := bs[..|bs| - 1];
      assert Deliveries(bs)[..|bs| - 1] == Deliveries(init);
      DeliveriesAppend(r, init);
      assert r.blocks + init + [bs[|bs| - 1]] == r.blocks + bs;
    } else {
      assert r.blocks + bs == r.blocks;
    }
  }

  /**
   * A successful start followed by blocks b1..bk and a stop: the buffer holds
   * exactly b1..bk, the flag is cleared, and the recording is the WAV
   * encoding of their concatenation at the context's rate.
   */
  lemma CaptureSession(r: Recorder, rate: nat, bs: seq<seq<real>>)
    requires r.pending > 0 && r.sampleRate == Some(rate)
    ensures Feasible(Step(r, DeviceGranted), Deliveries(bs))
    ensures Run(Step(r, DeviceGranted), Deliveries(bs)).blocks == bs
    ensures StopOutput(Run(Step(r, DeviceGranted), Deliveries(bs)))
            == Some(WavEncoder.Encode(SampleBuffer.Flatten(bs), rate))
    ensures !Step(Run(Step(r, DeviceGranted), Deliveries(bs)), Stop).recording
  {
    DeliveriesAppend(Step(r, DeviceGranted), bs);
  }
}
