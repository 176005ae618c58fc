/** integrated_code_scanner_app.py: process_frame deduplicates a frame's
    readings by text, gates each new text through the five-second window of
    the module-level `recently_scanned` map and reconciles it against the
    inventory; process_video runs it over an uploaded video, writing one
    frame image per text the run has not met before. */
module IntegratedApp {
  import opened Dedup
  import opened Inventory
  import opened Scan

  /** The texts process_frame returns: each text once, first occurrence first. */
  function FrameTexts(f: Frame): seq<string>
  {
    Texts(UniqueBy(f, TextOf))
  }

  /** The texts process_video's loop meets, frame after frame. */
  function RunSightings(frames: seq<Frame>): seq<Sighting>
  {
    if |frames| == 0 then []
    else RunSightings(frames[..|frames| - 1]) + SightingsAt(FrameTexts(frames[|frames| - 1]), |frames| - 1)
  }

  /** The timestamp map and the table after process_frame has run on each frame. */
  function RunEffect(st: ScanState, frames: seq<Frame>, resolve: Resolver): (r: ScanState)
    requires st.db.tableExists
    ensures r.db.tableExists
    ensures WellFormed(st.db) ==> WellFormed(r.db)
  {
    if |frames| == 0 then st
    else GateAll(RunEffect(st, frames[..|frames| - 1], resolve), UniqueBy(frames[|frames| - 1], TextOf), resolve)
  }

  /** Every text read in some frame. */
  function AllTexts(frames: seq<Frame>): set<string>
  {
    if |frames| == 0 then {} else AllTexts(frames[..|frames| - 1]) + KeysOf(frames[|frames| - 1], TextOf)
  }

  lemma RunSightingsStep(frames: seq<Frame>, idx: nat)
    requires idx < |frames|
    ensures RunSightings(frames[..idx + 1]) == RunSightings(frames[..idx]) + SightingsAt(FrameTexts(frames[idx]), idx)
  {
    assert frames[..idx + 1][..idx] == frames[..idx];
  }

  lemma RunEffectStep(st: ScanState, frames: seq<Frame>, idx: nat, resolve: Resolver)
    requires idx < |frames| && st.db.tableExists
    ensures RunEffect(st, frames[..idx + 1], resolve) == GateAll(RunEffect(st, frames[..idx], resolve), UniqueBy(frames[idx], TextOf), resolve)
  {
    assert frames[..idx + 1][..idx] == frames[..idx];
  }

  lemma {:induction false} SightingsKeys(u: seq<Detection>, idx: nat)
    ensures KeysOf(SightingsAt(Texts(u), idx), SightingText) == KeysOf(u, TextOf)
  {
    if |u| > 0 {
      var p := u[..|u| - 1];
      SightingsKeys(p, idx);
      assert SightingsAt(Texts(u), idx) == SightingsAt(Texts(p), idx) + [Sighting(u[|u| - 1].text, idx)];
      KeysOfSnoc(SightingsAt(Texts(p), idx), Sighting(u[|u| - 1].text, idx), SightingText);
    }
  }

  /** The list process_video returns holds exactly the texts read in the
      video's frames, suppressed ones included. */
  lemma {:induction false} RunBarcodesAreAllTexts(frames: seq<Frame>)
    ensures KeysOf(RunSightings(frames), SightingText) == AllTexts(frames)
  {
    if |frames| > 0 {
      var n := |frames| - 1;
      RunBarcodesAreAllTexts(frames[..n]);
      KeysOfAppend(RunSightings(frames[..n]), SightingsAt(FrameTexts(frames[n]), n), SightingText);
      SightingsKeys(UniqueBy(frames[n], TextOf), n);
      UniqueByFirstOccurrences(frames[n], TextOf);
    }
  }

  /** Within one run each distinct text is counted once and triggers
      exactly one frame write, made at its first sighting; so
      barcode_detected_count equals the number of texts returned. */
  lemma RunCountsDistinctTexts(frames: seq<Frame>)
    ensures var u := UniqueBy(RunSightings(frames), SightingText);
      && |u| == |KeysOf(RunSightings(frames), SightingText)| == |AllTexts(frames)|
      && |FrameFileNames(u)| == |u|
      && Distinct(u, SightingText)
      && forall k :: 0 <= k < |u| ==>
           u[k].text in KeysOf(RunSightings(frames), SightingText) &&
           u[k] == RunSightings(frames)[FirstIndex(RunSightings(frames), SightingText, u[k].text)]
  {
    UniqueByCount(RunSightings(frames), SightingText);
    UniqueByFirstOccurrences(RunSightings(frames), SightingText);
    RunBarcodesAreAllTexts(frames);
  }

  /** The effect of one process_frame call on a text t: a text the frame
      does not read keeps its timestamp and row; otherwise, judged by the
      clock of t's first reading in the frame, a reading inside the window
      changes neither, and one outside it sets the timestamp to that clock
      and reconciles t exactly once, however often the frame reads it. */
  lemma FrameEffectOnText(st: ScanState, f: Frame, resolve: Resolver, t: string)
    requires st.db.tableExists
    ensures var r := GateAll(st, UniqueBy(f, TextOf), resolve);
      && (t !in KeysOf(f, TextOf) ==> SameAt(st, r, t))
      && (t in KeysOf(f, TextOf) ==>
            var d := f[FirstIndex(f, TextOf, t)];
            && (Suppressed(st.cache, t, d.at) ==> SameAt(st, r, t))
            && (!Suppressed(st.cache, t, d.at) ==>
                  && t in r.cache && r.cache[t] == d.at
                  && t in r.db.rows && r.db.rows[t].fields == Reconcile(st.db, t, resolve).rows[t].fields))
  {
    var u := UniqueBy(f, TextOf);
    UniqueByFirstOccurrences(f, TextOf);
    if t in KeysOf(f, TextOf) {
      var i := FirstIndex(u, TextOf, t);
      GateAllAt(st, u, resolve, i);
    } else {
      forall i | 0 <= i < |u| ensures u[i].text != t {
        KeysOfContains(u, TextOf, i);
      }
      GateAllElsewhere(st, u, resolve, t);
    }
  }

  /** A three-frame video: "A" in frame 0 at second 0, "A" again in
      frame 1 at second 2, "B" in frame 2 at second 4. */
  function ThreeFrames(): seq<Frame>
  {
    [[Detection("QRCODE", "A", 4, 0)], [Detection("QRCODE", "A", 4, 2)], [Detection("QRCODE", "B", 4, 4)]]
  }

  lemma SingleReading(d: Detection)
    ensures UniqueBy([d], TextOf) == [d] && FrameTexts([d]) == [d.text]
  {
    assert [d][..0] == [];
  }

  lemma ThreeFrameSightings()
    ensures RunSightings(ThreeFrames()) == [Sighting("A", 0), Sighting("A", 1), Sighting("B", 2)]
  {
    var frames := ThreeFrames();
    assert frames[..0] == [] && frames[..3] == frames;
    SingleReadingSighting(frames, 0);
    SingleReadingSighting(frames, 1);
    SingleReadingSighting(frames, 2);
  }

  /** A frame of one reading adds that reading's text to the run. */
  lemma SingleReadingSighting(frames: seq<Frame>, idx: nat)
    requires idx < |frames| && |frames[idx]| == 1
    ensures RunSightings(frames[..idx + 1]) == RunSightings(frames[..idx]) + [Sighting(frames[idx][0].text, idx)]
  {
    var d := frames[idx][0];
    assert frames[idx] == [d];
    SingleReading(d);
    assert SightingsAt([d.text], idx) == [Sighting(d.text, idx)];
    RunSightingsStep(frames, idx);
  }

  /** process_video on the three-frame video returns "A" and "B" and writes
      exactly two frame images, those of frames 0 and 2. */
  lemma ThreeFrameWrites()
    ensures var u := UniqueBy(RunSightings(ThreeFrames()), SightingText);
      && KeysOf(RunSightings(ThreeFrames()), SightingText) == {"A", "B"}
      && FrameFileNames(u) == [FrameFileName(0), FrameFileName(2)]
  {
    ThreeFrameSightings();
    var a0, a1, b2 := Sighting("A", 0), Sighting("A", 1), Sighting("B", 2);
    assert [a0, a1, b2] == [a0] + [a1] + [b2];
    KeysOfSnoc([], a0, SightingText);
    UniqueBySnoc([], a0, SightingText);
    KeysOfSnoc([a0], a1, SightingText);
    UniqueBySnoc([a0], a1, SightingText);
    KeysOfSnoc([a0] + [a1], b2, SightingText);
    UniqueBySnoc([a0] + [a1], b2, SightingText);
    assert UniqueBy([a0, a1, b2], SightingText) == [a0, b2];
  }

  lemma SingleReadingStep(st: ScanState, frames: seq<Frame>, idx: nat, resolve: Resolver)
    requires st.db.tableExists && idx < |frames| && |frames[idx]| == 1
    ensures RunEffect(st, frames[..idx + 1], resolve) == GateStep(RunEffect(st, frames[..idx], resolve), frames[idx][0], resolve)
  {
    var d := frames[idx][0];
    assert frames[idx] == [d];
    SingleReading(d);
    GateAllSnoc(RunEffect(st, frames[..idx], resolve), [], d, resolve);
    RunEffectStep(st, frames, idx, resolve);
  }

  lemma ThreeFrameSteps(st: ScanState, resolve: Resolver)
    requires st.db.tableExists
    ensures var frames := ThreeFrames();
      var s1 := GateStep(st, frames[0][0], resolve);
      && RunEffect(st, frames[..1], resolve) == s1
      && RunEffect(st, frames[..2], resolve) == GateStep(s1, frames[1][0], resolve)
      && RunEffect(st, frames, resolve) == GateStep(GateStep(s1, frames[1][0], resolve), frames[2][0], resolve)
  {
    var frames := ThreeFrames();
    assert frames[..0] == [] && frames[..3] == frames;
    SingleReadingStep(st, frames, 0, resolve);
    SingleReadingStep(st, frames, 1, resolve);
    SingleReadingStep(st, frames, 2, resolve);
  }

  /** Starting from an empty timestamp map, the three-frame video
      reconciles "A" and "B" once each (a known product gains exactly 1, an
      unknown one is inserted from the resolver), frame 1 changes nothing,
      and no other row changes. */
  lemma ThreeFrameEffect(st: ScanState, resolve: Resolver)
    requires st.db.tableExists && st.cache == map[]
    ensures var frames := ThreeFrames();
      var r := RunEffect(st, frames, resolve);
      && RunEffect(st, frames[..2], resolve) == RunEffect(st, frames[..1], resolve)
      && r.cache == map["A" := 0, "B" := 4]
      && "A" in r.db.rows && r.db.rows["A"].fields == Reconcile(st.db, "A", resolve).rows["A"].fields
      && "B" in r.db.rows && r.db.rows["B"].fields == Reconcile(st.db, "B", resolve).rows["B"].fields
      && forall k :: k in st.db.rows && k != "A" && k != "B" ==> k in r.db.rows && r.db.rows[k] == st.db.rows[k]
  {
    var frames := ThreeFrames();
    var a0, a2, b4 := frames[0][0], frames[1][0], frames[2][0];
    ThreeFrameSteps(st, resolve);
    var s1 := GateStep(st, a0, resolve);
    assert s1.cache == map["A" := 0];
    assert Suppressed(s1.cache, "A", 2);
    var r := GateStep(s1, b4, resolve);
    assert "A" != "B" by {
      assert "A"[0] != "B"[0];
    }
    assert !Suppressed(s1.cache, "B", 4);
    assert r.cache == map["A" := 0, "B" := 4];
    assert SameAt(s1, r, "A");
    assert SameAt(st, s1, "B");
    if "B" in st.db.rows {
      var q := st.db.rows["B"].fields.quantity + 1;
      assert r.db.rows["B"].fields == st.db.rows["B"].fields.(quantity := q);
      assert Reconcile(st.db, "B", resolve).rows["B"].fields == st.db.rows["B"].fields.(quantity := q);
    }
  }

  /** The inner loop of process_video over one frame's barcode texts:
      a text not yet met in the run is added to the run's set, counted,
      and names a write of the current frame. Stated against the run's
      sightings `before` this frame. */
  method NoteTexts(texts: seq<string>, frameIdx: nat, across0: set<string>, count0: nat,
                   saved0: seq<string>, ghost before: seq<Sighting>, ghost u0: seq<Sighting>)
    returns (across: set<string>, count: nat, saved: seq<string>, ghost u: seq<Sighting>)
    requires across0 == KeysOf(before, SightingText)
    requires u0 == UniqueBy(before, SightingText)
    requires count0 == |u0| && saved0 == FrameFileNames(u0)
    ensures across == KeysOf(before + SightingsAt(texts, frameIdx), SightingText)
    ensures u == UniqueBy(before + SightingsAt(texts, frameIdx), SightingText)
    ensures count == |u| && saved == FrameFileNames(u)
  {
    across, count, saved, u := across0, count0, saved0, u0;
    SightingsEnds(before, texts, frameIdx);
    var j := 0;
    while j < |texts|
      invariant 0 <= j <= |texts|
      invariant across == KeysOf(before + SightingsAt(texts[..j], frameIdx), SightingText)
      invariant u == UniqueBy(before + SightingsAt(texts[..j], frameIdx), SightingText)
      invariant count == |u| && saved == FrameFileNames(u)
    {
      ghost var seen := before + SightingsAt(texts[..j], frameIdx);
      SightingsStep(before, texts, j, frameIdx);
      across, count, saved, u := NoteText(texts[j], frameIdx, across, count, saved, seen, u);
      j := j + 1;
    }
  }

  /** One pass of that inner loop, for the text of the sighting that
      follows `seen`. */
  method NoteText(text: string, frameIdx: nat, across0: set<string>, count0: nat,
                  saved0: seq<string>, ghost seen: seq<Sighting>, ghost u0: seq<Sighting>)
    returns (across: set<string>, count: nat, saved: seq<string>, ghost u: seq<Sighting>)
    requires across0 == KeysOf(seen, SightingText)
    requires u0 == UniqueBy(seen, SightingText)
    requires count0 == |u0| && saved0 == FrameFileNames(u0)
    ensures across == KeysOf(seen + [Sighting(text, frameIdx)], SightingText)
    ensures u == UniqueBy(seen + [Sighting(text, frameIdx)], SightingText)
    ensures count == |u| && saved == FrameFileNames(u)
  {
    across, count, saved, u := across0, count0, saved0, u0;
    FrameFileNamesSnoc(u, Sighting(text, frameIdx));
    UniqueBySnoc(seen, Sighting(text, frameIdx), SightingText);
    KeysOfSnoc(seen, Sighting(text, frameIdx), SightingText);
    if text !in across {
      across := across + {text};
      count := count + 1;
      saved := saved + [FrameFileName(frameIdx)];
      u := u + [Sighting(text, frameIdx)];
    }
  }

  /** The module state of the script: its `recently_scanned` map and the
      database it reconciles against. */
  class Scanner {
    var recentlyScanned: Cache
    const store: Store

    ghost predicate Valid()
      reads this, store
    {
      store.Valid() && store.tableExists
    }

    function State(): ScanState
      reads this, store
    {
      ScanState(recentlyScanned, store.State())
    }

    /** Importing the script: initialize_database() and an empty map. */
    constructor (store: Store)
      requires store.Valid()
      modifies store
      ensures Valid() && this.store == store && recentlyScanned == map[]
      ensures store.State() == Initialized(old(store.State()))
    {
      this.store := store;
      recentlyScanned := map[];
      new;
      store.InitializeDatabase();
    }

    /** The part of process_frame's loop body after a text is found new:
        the window check, the timestamp update and the reconciliation. */
    method Gate(d: Detection, resolve: Resolver)
      requires Valid()
      modifies this, store
      ensures Valid()
      ensures State() == GateStep(old(State()), d, resolve)
    {
      var now := d.at;
      if d.text in recentlyScanned && now - recentlyScanned[d.text] < ScanResetTime {
        // skipping duplicate scan
        return;
      }
      recentlyScanned := recentlyScanned[d.text := now];
      ReconcileIn(store, d.text, resolve);
    }

    /** process_frame: returns whether the frame had any reading, the
        frame's texts (first occurrences, decode order) and, per text,
        whether a bounding box was drawn; each new text goes through the
        window and, when outside it, is reconciled. */
    method ProcessFrame(frame: Frame, resolve: Resolver) returns (detected: bool, texts: seq<string>, boxes: seq<bool>)
      requires Valid()
      modifies this, store
      ensures Valid()
      ensures detected == (|frame| > 0)
      ensures texts == Texts(UniqueBy(frame, TextOf))
      ensures boxes == Boxes(UniqueBy(frame, TextOf))
      ensures State() == GateAll(old(State()), UniqueBy(frame, TextOf), resolve)
    {
      detected := false;
      var processed: set<string> := {};
      texts, boxes := [], [];
      ghost var u: seq<Detection> := [];
      ghost var st0 := State();
      var i := 0;
      while i < |frame|
        invariant 0 <= i <= |frame|
        invariant Valid()
        invariant u == UniqueBy(frame[..i], TextOf)
        invariant processed == KeysOf(frame[..i], TextOf)
        invariant texts == Texts(u) && boxes == Boxes(u)
        invariant detected == (i > 0)
        invariant State() == GateAll(st0, u, resolve)
      {
        var d := frame[i];
        PrefixStep(frame, i, TextOf);
        if d.text !in processed {
          detected := true;
          processed, texts, boxes, u := Accept(d, processed, texts, boxes, u, st0, resolve);
        }
        i := i + 1;
      }
      assert frame[..|frame|] == frame;
    }

    /** The body of process_frame's loop for a text the frame has not
        produced before: it is recorded, its box drawn, and it goes
        through the window. */
    method Accept(d: Detection, processed0: set<string>, texts0: seq<string>, boxes0: seq<bool>,
                  ghost u0: seq<Detection>, ghost st0: ScanState, resolve: Resolver)
      returns (processed: set<string>, texts: seq<string>, boxes: seq<bool>, ghost u: seq<Detection>)
      requires Valid() && st0.db.tableExists
      requires texts0 == Texts(u0) && boxes0 == Boxes(u0)
      requires State() == GateAll(st0, u0, resolve)
      modifies this, store
      ensures Valid()
      ensures processed == processed0 + {d.text} && u == u0 + [d]
      ensures texts == Texts(u) && boxes == Boxes(u)
      ensures State() == GateAll(st0, u, resolve)
    {
      processed := processed0 + {d.text};
      texts := texts0 + [d.text];
      boxes := boxes0 + [d.polygonLen == 4];
      GateAllSnoc(st0, u0, d, resolve);
      TextsBoxesSnoc(u0, d);
      u := u0 + [d];
      Gate(d, resolve);
    }

    /** process_video: an unopened capture returns an empty list and does
        nothing else; otherwise every frame goes through process_frame and
        each text not yet met in this run is counted and triggers a write
        of `detected_<frame index, 4 digits>.png`. Returns the run's texts,
        the count and the names written, in order. */
    method ProcessVideo(isOpened: bool, frames: seq<Frame>, resolve: Resolver)
      returns (barcodes: set<string>, count: nat, saved: seq<string>)
      requires Valid()
      modifies this, store
      ensures Valid()
      ensures !isOpened ==> barcodes == {} && count == 0 && saved == [] && State() == old(State())
      ensures isOpened ==>
        var u := UniqueBy(RunSightings(frames), SightingText);
        && barcodes == KeysOf(RunSightings(frames), SightingText)
        && count == |u|
        && saved == FrameFileNames(u)
        && State() == RunEffect(old(State()), frames, resolve)
    {
      if !isOpened {
        return {}, 0, [];
      }
      var frameIdx := 0;
      count := 0;
      var across: set<string> := {};
      saved := [];
      ghost var u: seq<Sighting> := [];
      ghost var st0 := State();
      while frameIdx < |frames|
        invariant 0 <= frameIdx <= |frames|
        invariant Valid()
        invariant across == KeysOf(RunSightings(frames[..frameIdx]), SightingText)
        invariant u == UniqueBy(RunSightings(frames[..frameIdx]), SightingText)
        invariant count == |u| && saved == FrameFileNames(u)
        invariant State() == RunEffect(st0, frames[..frameIdx], resolve)
      {
        RunSightingsStep(frames, frameIdx);
        RunEffectStep(st0, frames, frameIdx, resolve);
        var detected, texts, boxes := ProcessFrame(frames[frameIdx], resolve);
        ghost var before := RunSightings(frames[..frameIdx]);
        across, count, saved, u := NoteTexts(texts, frameIdx, across, count, saved, before, u);
        frameIdx := frameIdx + 1;
      }
      assert frames[..|frames|] == frames;
      barcodes := across;
    }
  }
}
