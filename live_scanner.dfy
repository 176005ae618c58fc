/** Barcode_Scanner_Video_Processing_database/barcode_scanner_Scientific_Computing_Concepts.py:
    the camera script. Its process_frame is the one of
    integrated_code_scanner_app.py; what it adds is the top-level loop, which
    runs only for source choice '0', persists each text once per run, stops
    at the first 'q' and empties the timestamp map on 'r'. */
module LiveScanner {
  import opened Dedup
  import opened Inventory
  import opened Scan
  import opened IntegratedApp

  /** The frames of the ticks. */
  function Frames(ticks: seq<Tick>): (r: seq<Frame>)
    ensures |r| == |ticks|
  {
    if |ticks| == 0 then [] else Frames(ticks[..|ticks| - 1]) + [ticks[|ticks| - 1].frame]
  }

  /** Ticks with the same frames have the same frames, whatever their keys. */
  lemma {:induction false} FramesIgnoreKeys(ticks: seq<Tick>, other: seq<Tick>)
    requires |ticks| == |other|
    requires forall i :: 0 <= i < |ticks| ==> ticks[i].frame == other[i].frame
    ensures Frames(ticks) == Frames(other)
  {
    if |ticks| > 0 {
      FramesIgnoreKeys(ticks[..|ticks| - 1], other[..|other| - 1]);
    }
  }

  /** How many ticks the loop processes: up to and including the first
      one whose key is 'q', or all of them when no 'q' comes. */
  function StopAt(ticks: seq<Tick>): (n: nat)
    ensures n <= |ticks|
    ensures forall j :: 0 <= j < n - 1 ==> ticks[j].key != QuitKey
    ensures n < |ticks| ==> 0 < n && ticks[n - 1].key == QuitKey
    ensures |ticks| > 0 ==> n > 0
  {
    if |ticks| == 0 then 0
    else if ticks[0].key == QuitKey then 1
    else
      var m := StopAt(ticks[1..]);
      assert forall j :: 1 <= j < m ==> ticks[j] == ticks[1..][j - 1];
      1 + m
  }

  /** One tick: the frame goes through process_frame, and an 'r' key then
      empties the timestamp map; the table is untouched by the key. */
  function TickEffect(st: ScanState, tick: Tick, resolve: Resolver): (r: ScanState)
    requires st.db.tableExists
    ensures r.db == GateAll(st, UniqueBy(tick.frame, TextOf), resolve).db
    ensures tick.key == ResetKey ==> r.cache == map[]
    ensures tick.key != ResetKey ==> r == GateAll(st, UniqueBy(tick.frame, TextOf), resolve)
  {
    var s := GateAll(st, UniqueBy(tick.frame, TextOf), resolve);
    if tick.key == ResetKey then s.(cache := map[]) else s
  }

  /** The timestamp map and table after the loop has processed the ticks. */
  function LiveEffect(st: ScanState, ticks: seq<Tick>, resolve: Resolver): (r: ScanState)
    requires st.db.tableExists
    ensures r.db.tableExists
    ensures WellFormed(st.db) ==> WellFormed(r.db)
  {
    if |ticks| == 0 then st
    else TickEffect(LiveEffect(st, ticks[..|ticks| - 1], resolve), ticks[|ticks| - 1], resolve)
  }

  lemma LiveStep(st: ScanState, ticks: seq<Tick>, i: nat, resolve: Resolver)
    requires i < |ticks| && st.db.tableExists
    ensures LiveEffect(st, ticks[..i + 1], resolve) == TickEffect(LiveEffect(st, ticks[..i], resolve), ticks[i], resolve)
  {
    assert ticks[..i + 1][..i] == ticks[..i];
  }

  lemma LiveSightingsStep(ticks: seq<Tick>, i: nat)
    requires i < |ticks|
    ensures RunSightings(Frames(ticks[..i + 1])) == RunSightings(Frames(ticks[..i])) + SightingsAt(FrameTexts(ticks[i].frame), i)
  {
    assert ticks[..i + 1][..i] == ticks[..i];
  }

  /** The loop stops right after the first 'q'. */
  lemma StopAtFirstQuit(ticks: seq<Tick>, i: nat)
    requires i < |ticks| && ticks[i].key == QuitKey
    requires forall j :: 0 <= j < i ==> ticks[j].key != QuitKey
    ensures StopAt(ticks) == i + 1
  {
    var n := StopAt(ticks);
    if n < |ticks| {
      assert ticks[n - 1].key == QuitKey;
    }
  }

  /** Without a 'q' the loop processes every tick. */
  lemma StopAtNoQuit(ticks: seq<Tick>)
    requires forall j :: 0 <= j < |ticks| ==> ticks[j].key != QuitKey
    ensures StopAt(ticks) == |ticks|
  {
  }

  /** Which texts the loop persists, and when, depends only on the frames
      and on where the first 'q' is: the 'r' key clears the timestamp map
      but not the run's set, so pressing it never causes a second write. */
  lemma {:induction false} ResetKeepsRunSet(ticks: seq<Tick>, other: seq<Tick>)
    requires |ticks| == |other|
    requires forall i :: 0 <= i < |ticks| ==>
      ticks[i].frame == other[i].frame && (ticks[i].key == QuitKey <==> other[i].key == QuitKey)
    ensures StopAt(ticks) == StopAt(other)
    ensures Frames(ticks[..StopAt(ticks)]) == Frames(other[..StopAt(other)])
  {
    if |ticks| > 0 && ticks[0].key != QuitKey {
      ResetKeepsRunSet(ticks[1..], other[1..]);
    }
    var n := StopAt(ticks);
    FramesIgnoreKeys(ticks[..n], other[..n]);
  }

  /** After an 'r', the next frame's first reading of any text is outside
      the window, so that text is reconciled again (its quantity grows by
      one if known, or the resolver supplies it) even if the run has
      already persisted it. */
  lemma ResetThenReconcile(st: ScanState, ticks: seq<Tick>, k: nat, t: string, resolve: Resolver)
    requires st.db.tableExists
    requires k + 1 < |ticks| && ticks[k].key == ResetKey
    requires t in KeysOf(ticks[k + 1].frame, TextOf)
    ensures var before := LiveEffect(st, ticks[..k + 1], resolve);
      var after := LiveEffect(st, ticks[..k + 2], resolve);
      && before.cache == map[]
      && t in after.db.rows
      && after.db.rows[t].fields == Reconcile(before.db, t, resolve).rows[t].fields
  {
    LiveStep(st, ticks, k, resolve);
    LiveStep(st, ticks, k + 1, resolve);
    var before := LiveEffect(st, ticks[..k + 1], resolve);
    FrameEffectOnText(before, ticks[k + 1].frame, resolve, t);
  }

  /** The script below the function definitions, run against the module's
      scanner (its timestamp map and database): a choice other than '0'
      exits at once and an unopened source processes nothing; otherwise the
      frames are streamed. Returns the count, the names written and the
      run's set of texts. */
  method Run(scanner: Scanner, choice: string, isOpened: bool, ticks: seq<Tick>, resolve: Resolver)
    returns (count: nat, saved: seq<string>, across: set<string>)
    requires scanner.Valid()
    modifies scanner, scanner.store
    ensures scanner.Valid()
    ensures choice != "0" || !isOpened ==>
      count == 0 && saved == [] && across == {} && scanner.State() == old(scanner.State())
    ensures choice == "0" && isOpened ==>
      var fs := Frames(ticks[..StopAt(ticks)]);
      var u := UniqueBy(RunSightings(fs), SightingText);
      && across == KeysOf(RunSightings(fs), SightingText)
      && count == |u|
      && saved == FrameFileNames(u)
      && scanner.State() == LiveEffect(old(scanner.State()), ticks[..StopAt(ticks)], resolve)
  {
    if choice != "0" {
      // invalid input: exit()
      return 0, [], {};
    }
    if !isOpened {
      return 0, [], {};
    }
    count, saved, across := Stream(scanner, ticks, resolve);
  }

  /** The script's while loop: each frame read goes through process_frame,
      each text new to the run is counted and names a write of
      `detected_<frame index>.png`, 'q' ends the loop and 'r' empties the
      timestamp map. */
  method Stream(scanner: Scanner, ticks: seq<Tick>, resolve: Resolver)
    returns (count: nat, saved: seq<string>, across: set<string>)
    requires scanner.Valid()
    modifies scanner, scanner.store
    ensures scanner.Valid()
    ensures var fs := Frames(ticks[..StopAt(ticks)]);
      var u := UniqueBy(RunSightings(fs), SightingText);
      && across == KeysOf(RunSightings(fs), SightingText)
      && count == |u|
      && saved == FrameFileNames(u)
      && scanner.State() == LiveEffect(old(scanner.State()), ticks[..StopAt(ticks)], resolve)
  {
    var frameIdx := 0;
    count, saved, across := 0, [], {};
    ghost var u: seq<Sighting> := [];
    ghost var st0 := scanner.State();
    while frameIdx < |ticks|
      invariant 0 <= frameIdx <= |ticks|
      invariant scanner.Valid()
      invariant forall j :: 0 <= j < frameIdx ==> ticks[j].key != QuitKey
      invariant across == KeysOf(RunSightings(Frames(ticks[..frameIdx])), SightingText)
      invariant u == UniqueBy(RunSightings(Frames(ticks[..frameIdx])), SightingText)
      invariant count == |u| && saved == FrameFileNames(u)
      invariant scanner.State() == LiveEffect(st0, ticks[..frameIdx], resolve)
    {
      var tick := ticks[frameIdx];
      ghost var seen := RunSightings(Frames(ticks[..frameIdx]));
      LiveStep(st0, ticks, frameIdx, resolve);
      LiveSightingsStep(ticks, frameIdx);
      across, count, saved, u := StreamTick(scanner, tick, frameIdx, across, count, saved, seen, u, resolve);
      if tick.key == QuitKey {
        StopAtFirstQuit(ticks, frameIdx);
        return;
      }
      assert forall j :: 0 <= j < frameIdx + 1 ==> ticks[j].key != QuitKey by {
        assert ticks[frameIdx].key != QuitKey;
      }
      frameIdx := frameIdx + 1;
    }
    StopAtNoQuit(ticks);
    assert ticks[..|ticks|] == ticks;
  }

  /** One pass of the loop body up to its key checks: process_frame, the
      per-text run-set update and the 'r' reset (a 'q' leaves the loop
      without looking at 'r'). */
  method StreamTick(scanner: Scanner, tick: Tick, frameIdx: nat, across0: set<string>, count0: nat,
                    saved0: seq<string>, ghost before: seq<Sighting>, ghost u0: seq<Sighting>, resolve: Resolver)
    returns (across: set<string>, count: nat, saved: seq<string>, ghost u: seq<Sighting>)
    requires scanner.Valid()
    requires across0 == KeysOf(before, SightingText)
    requires u0 == UniqueBy(before, SightingText)
    requires count0 == |u0| && saved0 == FrameFileNames(u0)
    modifies scanner, scanner.store
    ensures scanner.Valid()
    ensures across == KeysOf(before + SightingsAt(FrameTexts(tick.frame), frameIdx), SightingText)
    ensures u == UniqueBy(before + SightingsAt(FrameTexts(tick.frame), frameIdx), SightingText)
    ensures count == |u| && saved == FrameFileNames(u)
    ensures scanner.State() == TickEffect(old(scanner.State()), tick, resolve)
  {
    var detected, texts, boxes := scanner.ProcessFrame(tick.frame, resolve);
    across, count, saved, u := NoteTexts(texts, frameIdx, across0, count0, saved0, before, u0);
    if tick.key == ResetKey {
      scanner.recentlyScanned := map[];
    }
  }
}
