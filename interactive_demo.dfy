/** The interactive demo: a five-phase machine that scans, enhances and
    assembles a preset, driven by a start/replay button, the preset buttons
    and the before/after slider, with the phase changes of a run queued as
    timers.

    A timer is the callback it will run. The three timers of a run are
    queued together with increasing delays and the restart timer alone, so
    the queue is always in firing order and only the order of firing is
    kept. A timer that has fired leaves the queue. */
module InteractiveDemo {
  import opened Seqs

  /** `DemoPhase` */
  datatype Phase = Idle | Scan | Enhance | Assemble | Done

  /** The position of a phase in a run. */
  function Rank(p: Phase): nat {
    match p
    case Idle => 0
    case Scan => 1
    case Enhance => 2
    case Assemble => 3
    case Done => 4
  }

  /** What a queued timer does when it fires: move to a phase and a split
      position, or start the run again. */
  datatype Timer = Advance(phase: Phase, split: int) | Restart

  /** The timers a run queues, in firing order. */
  const PipelineTimers: seq<Timer> := [Advance(Enhance, 47), Advance(Assemble, 82), Advance(Done, 100)]

  /* ---------------------------- derived values ---------------------------- */

  /** `isRunning`: a run is under way. */
  function IsRunning(p: Phase): (r: bool)
    ensures r <==> 0 < Rank(p) < Rank(Done)
  {
    p != Idle && p != Done
  }

  /** `isEnhanced`: the phase is one of `ENHANCED_PHASES`. */
  function IsEnhanced(p: Phase): (r: bool)
    ensures r <==> Rank(p) >= Rank(Enhance)
  {
    p in [Enhance, Assemble, Done]
  }

  datatype DemoCopy = DemoCopy(
    buttonStart: string,
    buttonBusy: string,
    buttonReplay: string,
    statusScan: string,
    statusEnhance: string,
    statusAssemble: string,
    statusDone: string)

  /** `buttonLabel`: busy while running, replay when done, start when idle. */
  function ButtonLabel(copy: DemoCopy, p: Phase): (r: string)
    ensures IsRunning(p) ==> r == copy.buttonBusy
    ensures p == Done ==> r == copy.buttonReplay
    ensures p == Idle ==> r == copy.buttonStart
  {
    if IsRunning(p) then copy.buttonBusy else if p == Done then copy.buttonReplay else copy.buttonStart
  }

  /** `statusText`; the idle phase shows the scanning text too. */
  function StatusText(copy: DemoCopy, p: Phase): (r: string)
    ensures p == Idle || p == Scan ==> r == copy.statusScan
    ensures p == Enhance ==> r == copy.statusEnhance
    ensures p == Assemble ==> r == copy.statusAssemble
    ensures p == Done ==> r == copy.statusDone
  {
    match p
    case Scan => copy.statusScan
    case Enhance => copy.statusEnhance
    case Assemble => copy.statusAssemble
    case Done => copy.statusDone
    case Idle => copy.statusScan
  }

  /** `activePreset`: the preset index wraps around the list. */
  function ActivePreset<P>(presets: seq<P>, presetIndex: nat): (r: P)
    requires |presets| > 0
    ensures r in presets
    ensures presetIndex < |presets| ==> r == presets[presetIndex]
  {
    presets[presetIndex % |presets|]
  }

  /** How many outputs the pack shows. */
  const PackSize: nat := 3

  /** `outputPack`: the active preset and the two after it, wrapping. */
  function OutputPack<P>(presets: seq<P>, presetIndex: nat): (r: seq<P>)
    requires |presets| > 0
    ensures |r| == PackSize
    ensures forall k | 0 <= k < PackSize :: r[k] == presets[(presetIndex + k) % |presets|]
    ensures r[0] == ActivePreset(presets, presetIndex)
  {
    seq(PackSize, k requires 0 <= k < PackSize => presets[(presetIndex + k) % |presets|])
  }

  /** With at least three presets the pack shows three different positions
      of the list. */
  lemma OutputPackDistinctPositions(n: nat, presetIndex: nat, j: nat, k: nat)
    requires n >= PackSize && j < k < PackSize
    ensures (presetIndex + j) % n != (presetIndex + k) % n
  {
    var a := presetIndex + j;
    var d := k - j;
    var q := a / n;
    var r := a % n;
    assert a == q * n + r;
    if r + d < n {
      ModUnique(a + d, q, r + d, n);
    } else {
      assert a + d == (q + 1) * n + (r + d - n);
      ModUnique(a + d, q + 1, r + d - n, n);
    }
  }

  /** The remainder of `q * n + r` is `r` for any `r` in `[0, n)`. */
  lemma ModUnique(b: int, q: int, r: int, n: int)
    requires n > 0 && 0 <= r < n && b == q * n + r
    ensures b % n == r
  {
    var x := b / n - q;
    assert x * n == r - b % n;
    if x >= 1 {
      MulAtLeast(x, n);
    } else if x <= -1 {
      MulAtLeast(-x, n);
    }
  }

  /** A positive multiple of `n` is at least `n`. */
  lemma MulAtLeast(x: int, n: int)
    requires x >= 1 && n > 0
    ensures x * n >= n
  {
  }

  /** Selecting another preset moves the whole pack along the list. */
  lemma OutputPackShifts<P>(presets: seq<P>, presetIndex: nat)
    requires |presets| > 0
    ensures OutputPack(presets, presetIndex + 1)[..PackSize - 1] == OutputPack(presets, presetIndex)[1..]
  {
  }

  /** `visibleOutputPack`: the first two outputs on a compact screen. */
  function VisibleOutputPack<P>(pack: seq<P>, isCompact: bool): (r: seq<P>)
    requires |pack| == PackSize
    ensures |r| == if isCompact then 2 else PackSize
    ensures r == pack[..|r|]
  {
    if isCompact then pack[..2] else pack
  }

  datatype Bar = Bar(value: int, caption: string, pulse: bool)

  datatype Progress = Progress(analysis: Bar, enhancement: Bar, assembly: Bar)

  /** `progressState` */
  function ProgressState(p: Phase): (r: Progress)
    ensures r.analysis.value >= r.enhancement.value >= r.assembly.value
    ensures IsRunning(p) <==> r.analysis.pulse || r.enhancement.pulse || r.assembly.pulse
  {
    match p
    case Scan => Progress(Bar(46, "46%", true), Bar(0, "Waiting", false), Bar(0, "Waiting", false))
    case Enhance => Progress(Bar(100, "Done", false), Bar(64, "64%", true), Bar(0, "Waiting", false))
    case Assemble => Progress(Bar(100, "Done", false), Bar(100, "Done", false), Bar(72, "72%", true))
    case Done => Progress(Bar(100, "Done", false), Bar(100, "Done", false), Bar(100, "Done", false))
    case Idle => Progress(Bar(0, "Idle", false), Bar(0, "Idle", false), Bar(0, "Idle", false))
  }

  /** Every bar fills as the run advances: a later phase never shows less
      on any bar. */
  lemma ProgressMonotone(p: Phase, q: Phase)
    requires Rank(p) <= Rank(q)
    ensures ProgressState(p).analysis.value <= ProgressState(q).analysis.value
    ensures ProgressState(p).enhancement.value <= ProgressState(q).enhancement.value
    ensures ProgressState(p).assembly.value <= ProgressState(q).assembly.value
  {
  }

  /** Every bar is a percentage; a bar pulses exactly while it is partly
      filled, is captioned done when full, and all are full when done. */
  lemma ProgressBars(p: Phase)
    ensures var s := ProgressState(p);
            forall b | b in [s.analysis, s.enhancement, s.assembly] ::
              && 0 <= b.value <= 100
              && (b.pulse <==> 0 < b.value < 100)
              && (b.value == 100 <==> b.caption == "Done")
    ensures p == Done <==> ProgressState(p).assembly.value == 100
    ensures p == Idle <==> ProgressState(p).analysis.value == 0
  {
  }

  /* ------------------------------ the machine ------------------------------ */

  class Demo {
    var phase: Phase
    var presetIndex: nat
    var splitPosition: int
    var prefersReducedMotion: bool
    /** The pending timers, in firing order. */
    var timers: seq<Timer>

    /** The states the handlers and timers can reach: the split is a
        percentage; idle is at 0 with at most a restart pending; a running
        phase sits at its split with the rest of the run queued; done has
        nothing queued. */
    ghost predicate Valid()
      reads this
    {
      && 0 <= splitPosition <= 100
      && match phase
         case Idle => splitPosition == 0 && (timers == [] || timers == [Restart])
         case Scan => splitPosition == 8 && timers == PipelineTimers
         case Enhance => splitPosition == 47 && timers == PipelineTimers[1..]
         case Assemble => splitPosition == 82 && timers == PipelineTimers[2..]
         case Done => timers == []
    }

    constructor (prefersReducedMotion: bool)
      ensures Valid()
      ensures phase == Idle && presetIndex == 0 && splitPosition == 0 && timers == []
      ensures this.prefersReducedMotion == prefersReducedMotion
    {
      phase := Idle;
      presetIndex := 0;
      splitPosition := 0;
      this.prefersReducedMotion := prefersReducedMotion;
      timers := [];
    }

    /** `clearTimers`: every pending timer is cancelled. */
    method ClearTimers()
      modifies this`timers
      ensures timers == []
    {
      while timers != []
        decreases |timers|
      {
        timers := timers[1..];
      }
    }

    /** `runPipeline`: cancel what is pending, then either jump to the end
        or start a run at the scan phase with its three timers queued. */
    method RunPipeline()
      modifies this`timers, this`phase, this`splitPosition
      ensures Valid()
      ensures prefersReducedMotion ==> phase == Done && splitPosition == 100 && timers == []
      ensures !prefersReducedMotion ==> phase == Scan && splitPosition == 8 && timers == PipelineTimers
    {
      ClearTimers();
      splitPosition := 8;
      if prefersReducedMotion {
        phase := Done;
        splitPosition := 100;
        return;
      }
      phase := Scan;
      timers := timers + [Advance(Enhance, 47)];
      timers := timers + [Advance(Assemble, 82)];
      timers := timers + [Advance(Done, 100)];
    }

    /** `handleAction`: ignored during a run; from idle or done it starts a
        run (from done the split starts over). */
    method HandleAction()
      requires Valid()
      modifies this`timers, this`phase, this`splitPosition
      ensures Valid()
      ensures IsRunning(old(phase)) ==> phase == old(phase) && splitPosition == old(splitPosition)
                                        && timers == old(timers)
      ensures !IsRunning(old(phase)) && !prefersReducedMotion ==>
                phase == Scan && splitPosition == 8 && timers == PipelineTimers
      ensures !IsRunning(old(phase)) && prefersReducedMotion ==>
                phase == Done && splitPosition == 100 && timers == []
    {
      if phase != Idle && phase != Done {
        return;
      }
      if phase == Done {
        phase := Idle;
        splitPosition := 0;
      }
      RunPipeline();
    }

    /** `handlePresetSelect`: choosing the active preset again during or
        after a run changes nothing; otherwise the demo goes back to idle on
        the chosen preset and, unless motion is reduced, queues a restart. */
    method HandlePresetSelect(index: nat)
      requires Valid()
      modifies this`timers, this`phase, this`splitPosition, this`presetIndex
      ensures Valid()
      ensures index == old(presetIndex) && old(phase) != Idle ==>
                phase == old(phase) && splitPosition == old(splitPosition) && timers == old(timers)
                && presetIndex == old(presetIndex)
      ensures !(index == old(presetIndex) && old(phase) != Idle) ==>
                && presetIndex == index && phase == Idle && splitPosition == 0
                && timers == (if prefersReducedMotion then [] else [Restart])
    {
      if index == presetIndex && phase != Idle {
        return;
      }
      ClearTimers();
      presetIndex := index;
      phase := Idle;
      splitPosition := 0;
      if !prefersReducedMotion {
        timers := timers + [Restart];
      }
    }

    /** `handleCompareChange`: dragging the slider ends any run and shows
        the comparison at the dragged position. */
    method HandleCompareChange(value: int)
      requires Valid()
      requires 0 <= value <= 100
      modifies this`timers, this`phase, this`splitPosition
      ensures Valid()
      ensures phase == Done && splitPosition == value && timers == []
    {
      ClearTimers();
      phase := Done;
      splitPosition := value;
    }

    /** The earliest pending timer fires. A run's timer moves the phase one
        step on and the split strictly forward; the restart timer starts a
        run. */
    method FireTimer()
      requires Valid()
      requires timers != []
      modifies this`timers, this`phase, this`splitPosition
      ensures Valid()
      ensures old(timers[0]).Advance? ==>
                && phase == old(timers[0]).phase && splitPosition == old(timers[0]).split
                && IsRunning(old(phase))
                && Rank(phase) == Rank(old(phase)) + 1
                && splitPosition > old(splitPosition)
                && timers == old(timers[1..])
      ensures old(timers[0]) == Restart ==>
                && old(phase) == Idle
                && (if prefersReducedMotion then phase == Done && splitPosition == 100 && timers == []
                    else phase == Scan && splitPosition == 8 && timers == PipelineTimers)
    {
      var t := timers[0];
      timers := timers[1..];
      match t {
        case Advance(p, split) =>
          phase := p;
          splitPosition := split;
        case Restart =>
          RunPipeline();
      }
    }
  }

  /** A run left alone from idle goes through every phase in order, with the
      split moving forward each time, and ends done at 100 with nothing
      queued. */
  method UninterruptedRun(d: Demo)
    requires d.Valid() && d.phase == Idle && !d.prefersReducedMotion
    modifies d
    ensures d.Valid() && d.phase == Done && d.splitPosition == 100 && d.timers == []
  {
    d.HandleAction();
    assert d.phase == Scan && d.splitPosition == 8;
    d.FireTimer();
    assert d.phase == Enhance && d.splitPosition == 47;
    d.FireTimer();
    assert d.phase == Assemble && d.splitPosition == 82;
    d.FireTimer();
  }
}
