/** website/barcode_scanner.py: process_frame cleans each decoded text
    (strip(), then the two-character sequences "/n" and "/r" removed) and
    keeps each cleaned text once per frame, touching neither the store nor
    the timestamp map; process_video handles even-numbered frames only,
    marks a text seen for the run before the five-second window is checked,
    and reconciles, counts and saves a frame for a text only when it is
    both new to the run and outside the window. */
module WebScanner {
  import opened Dedup
  import opened Inventory
  import opened Scan
  import opened Text

  /** str.isspace on one character: the ASCII whitespace, the information
      separators U+001C..U+001F, and the Unicode space and line/paragraph
      separators. */
  predicate IsSpace(c: char)
  {
    var n := c as int;
    || n == 0x20 || 0x09 <= n <= 0x0D || 0x1C <= n <= 0x1F || n == 0x85 || n == 0xA0
    || n == 0x1680 || 0x2000 <= n <= 0x200A || n == 0x2028 || n == 0x2029
    || n == 0x202F || n == 0x205F || n == 0x3000
  }

  /** The index of the first non-whitespace character of s at or after i,
      or |s| when there is none. */
  function SkipSpace(s: string, i: nat): (k: nat)
    requires i <= |s|
    ensures i <= k <= |s|
    ensures forall j :: i <= j < k ==> IsSpace(s[j])
    ensures k < |s| ==> !IsSpace(s[k])
    decreases |s| - i
  {
    if i < |s| && IsSpace(s[i]) then SkipSpace(s, i + 1) else i
  }

  /** The end of s[..e] once its trailing whitespace is cut off. */
  function TrimEnd(s: string, e: nat): (k: nat)
    requires e <= |s|
    ensures k <= e
    ensures forall j :: k <= j < e ==> IsSpace(s[j])
    ensures k > 0 ==> !IsSpace(s[k - 1])
  {
    if e > 0 && IsSpace(s[e - 1]) then TrimEnd(s, e - 1) else e
  }

  /** s without its leading whitespace. */
  function StripLeft(s: string): string
  {
    s[SkipSpace(s, 0)..]
  }

  /** s without its trailing whitespace. */
  function StripRight(s: string): string
  {
    s[..TrimEnd(s, |s|)]
  }

  /** str.strip() with no argument. */
  function Strip(s: string): (r: string)
    ensures |r| <= |s|
    ensures |r| > 0 ==> !IsSpace(r[0]) && !IsSpace(r[|r| - 1])
  {
    StripRight(StripLeft(s))
  }

  /** strip() cuts s down to a slice s[a..a + |r|] with only whitespace
      outside it and none at either of its ends. */
  lemma StripSlice(s: string)
    ensures var r := Strip(s);
      var a := |s| - |StripLeft(s)|;
      && a + |r| <= |s|
      && r == s[a..a + |r|]
      && (forall i :: 0 <= i < a ==> IsSpace(s[i]))
      && (forall i :: a + |r| <= i < |s| ==> IsSpace(s[i]))
      && (|r| > 0 ==> !IsSpace(r[0]) && !IsSpace(r[|r| - 1]))
  {
    var a := SkipSpace(s, 0);
    var l := s[a..];
    var b := TrimEnd(l, |l|);
    assert l[..b] == s[a..a + b];
    forall i | a + b <= i < |s| ensures IsSpace(s[i]) {
      assert s[i] == l[i - a];
    }
    if b > 0 {
      assert l[b - 1] == s[a + b - 1];
    }
  }

  /** A text with no whitespace at its ends is left alone by strip(). */
  lemma StripFixed(s: string)
    requires |s| > 0 ==> !IsSpace(s[0]) && !IsSpace(s[|s| - 1])
    ensures Strip(s) == s
  {
    assert SkipSpace(s, 0) == 0;
    assert s[0..] == s;
  }

  /** strip() is idempotent. */
  lemma StripIdempotent(s: string)
    ensures Strip(Strip(s)) == Strip(s)
  {
    StripSlice(s);
    StripFixed(Strip(s));
  }

  /** str.replace(pat, ''): one left-to-right scan that deletes each
      non-overlapping occurrence of pat. */
  function RemoveAll(s: string, pat: string): (r: string)
    requires |pat| > 0
    ensures |r| <= |s|
    decreases |s|
  {
    if |s| < |pat| then s
    else if s[..|pat|] == pat then RemoveAll(s[|pat|..], pat)
    else [s[0]] + RemoveAll(s[1..], pat)
  }

  /** Deleting occurrences only ever deletes characters. */
  lemma {:induction false} RemoveAllSubseq(s: string, pat: string)
    requires |pat| > 0
    ensures IsSubseq(RemoveAll(s, pat), s)
    decreases |s|
  {
    if |s| < |pat| {
      SubseqRefl(s);
    } else if s[..|pat|] == pat {
      RemoveAllSubseq(s[|pat|..], pat);
      SubseqOfSuffix(RemoveAll(s, pat), s, |pat|);
    } else {
      RemoveAllSubseq(s[1..], pat);
      var r := RemoveAll(s, pat);
      assert r[0] == s[0] && r[1..] == RemoveAll(s[1..], pat);
    }
  }

  /** A text in which pat's first character never occurs is left as it is. */
  lemma {:induction false} RemoveAllAbsent(s: string, pat: string)
    requires |pat| > 0 && pat[0] !in s
    ensures RemoveAll(s, pat) == s
    decreases |s|
  {
    if |s| >= |pat| {
      assert s[0] != pat[0];
      assert s[..|pat|] != pat;
      RemoveAllAbsent(s[1..], pat);
      assert [s[0]] + s[1..] == s;
    }
  }

  /** The cleaning of website/barcode_scanner.py's process_frame:
      `.strip().replace('/n', '').replace('/r', '')`, where "/n" and "/r"
      are a slash followed by a letter. */
  function Clean(s: string): (r: string)
    ensures |r| <= |s|
  {
    RemoveAll(RemoveAll(Strip(s), "/n"), "/r")
  }

  /** Cleaning only deletes characters. */
  lemma CleanSubseq(s: string)
    ensures IsSubseq(Clean(s), s)
  {
    var t := Strip(s);
    var u := RemoveAll(t, "/n");
    StripSlice(s);
    var a := |s| - |StripLeft(s)|;
    assert s[a..][..|t|] == t;
    SubseqRefl(t);
    SubseqPrefix(t, s[a..], |t|);
    SubseqOfSuffix(t, s, a);
    RemoveAllSubseq(t, "/n");
    RemoveAllSubseq(u, "/r");
    SubseqTrans(u, t, s);
    SubseqTrans(Clean(s), u, s);
  }

  /** A text with no whitespace at its ends and no '/' is already clean. */
  lemma CleanFixed(s: string)
    requires |s| > 0 ==> !IsSpace(s[0]) && !IsSpace(s[|s| - 1])
    requires '/' !in s
    ensures Clean(s) == s
  {
    StripFixed(s);
    RemoveAllAbsent(s, "/n");
    RemoveAllAbsent(s, "/r");
  }

  /** Cleaning is not idempotent: the scan resumes after a deleted "/n",
      so "//nn" cleans to "/n", which cleans again to "". */
  lemma CleanNotIdempotent()
    ensures Clean("//nn") == "/n" && Clean("/n") == ""
  {
    assert Strip("//nn") == "//nn";
    assert Strip("/n") == "/n";
    assert RemoveAll("nn", "/n") == "nn";
    assert RemoveAll("/nn", "/n") == "n";
    assert RemoveAll("//nn", "/n") == "/n";
    assert RemoveAll("/n", "/r") == "/n";
  }

  /** strip() runs before the deletions, so a cleaned text can still end
      in whitespace: "a /n" cleans to "a ". */
  lemma CleanMayEndInSpace()
    ensures Clean("a /n") == "a " && IsSpace(Clean("a /n")[1])
  {
    assert Strip("a /n") == "a /n";
    assert RemoveAll("/n", "/n") == "";
    assert RemoveAll(" /n", "/n") == " ";
    assert RemoveAll("a /n", "/n") == "a ";
    assert RemoveAll(" ", "/r") == " ";
    assert RemoveAll("a ", "/r") == "a ";
  }

  /** The frame's readings with their texts cleaned. */
  function CleanAll(f: Frame): (r: seq<Detection>)
    ensures |r| == |f|
  {
    if |f| == 0 then [] else CleanAll(f[..|f| - 1]) + [f[|f| - 1].(text := Clean(f[|f| - 1].text))]
  }

  lemma CleanAllStep(f: Frame, i: nat)
    requires i < |f|
    ensures CleanAll(f[..i + 1]) == CleanAll(f[..i]) + [f[i].(text := Clean(f[i].text))]
  {
    assert f[..i + 1][..i] == f[..i];
  }

  /** Cleaning changes a reading's text and nothing else. */
  lemma {:induction false} CleanAllAt(f: Frame, i: nat)
    requires i < |f|
    ensures CleanAll(f)[i] == f[i].(text := Clean(f[i].text))
  {
    if i < |f| - 1 {
      CleanAllAt(f[..|f| - 1], i);
    }
  }

  /** process_frame: returns whether the frame had any reading and the
      readings kept (cleaned text, first occurrence of each cleaned text, in
      decode order, each with whether its box was drawn); it has no other
      effect. */
  method ProcessFrame(frame: Frame) returns (detected: bool, kept: seq<Detection>, boxes: seq<bool>)
    ensures detected == (|frame| > 0)
    ensures kept == UniqueBy(CleanAll(frame), TextOf)
    ensures boxes == Boxes(kept)
  {
    detected := false;
    var processed: set<string> := {};
    kept, boxes := [], [];
    var i := 0;
    while i < |frame|
      invariant 0 <= i <= |frame|
      invariant processed == KeysOf(CleanAll(frame[..i]), TextOf)
      invariant kept == UniqueBy(CleanAll(frame[..i]), TextOf)
      invariant boxes == Boxes(kept)
      invariant detected == (i > 0)
    {
      var d := frame[i].(text := Clean(frame[i].text));
      CleanAllStep(frame, i);
      KeysOfSnoc(CleanAll(frame[..i]), d, TextOf);
      UniqueBySnoc(CleanAll(frame[..i]), d, TextOf);
      if d.text !in processed {
        detected := true;
        processed := processed + {d.text};
        TextsBoxesSnoc(kept, d);
        kept := kept + [d];
        boxes := boxes + [d.polygonLen == 4];
      }
      i := i + 1;
    }
    assert frame[..|frame|] == frame;
  }

  /** A kept reading with the index of its frame. */
  datatype Reading = Reading(d: Detection, frameIdx: nat)

  function ReadingText(r: Reading): string { r.d.text }

  /** The kept readings of one frame, at frame index idx. */
  function ReadingsAt(ds: seq<Detection>, idx: nat): (r: seq<Reading>)
    ensures |r| == |ds|
  {
    if |ds| == 0 then [] else ReadingsAt(ds[..|ds| - 1], idx) + [Reading(ds[|ds| - 1], idx)]
  }

  lemma ReadingsAtStep(ds: seq<Detection>, j: nat, idx: nat)
    requires j < |ds|
    ensures ReadingsAt(ds[..j + 1], idx) == ReadingsAt(ds[..j], idx) + [Reading(ds[j], idx)]
  {
    assert ds[..j + 1][..j] == ds[..j];
  }

  /** The readings process_video's loop handles: those kept by
      process_frame in the even-numbered frames; odd-numbered frames are
      skipped. */
  function WebReadings(frames: seq<Frame>): seq<Reading>
  {
    if |frames| == 0 then []
    else
      var n := |frames| - 1;
      WebReadings(frames[..n]) + (if n % 2 == 0 then ReadingsAt(UniqueBy(CleanAll(frames[n]), TextOf), n) else [])
  }

  lemma WebReadingsStep(frames: seq<Frame>, idx: nat)
    requires idx < |frames|
    ensures idx % 2 == 0 ==>
      WebReadings(frames[..idx + 1]) == WebReadings(frames[..idx]) + ReadingsAt(UniqueBy(CleanAll(frames[idx]), TextOf), idx)
    ensures idx % 2 != 0 ==> WebReadings(frames[..idx + 1]) == WebReadings(frames[..idx])
  {
    assert frames[..idx + 1][..idx] == frames[..idx];
  }

  /** What process_video has built after some readings: the run's set of
      texts, the readings it reconciled and saved a frame for (in order),
      and the timestamp map and table. */
  datatype RunState = RunState(seen: set<string>, accepted: seq<Reading>, st: ScanState)

  /** The loop over readings: a text already in the run's set is passed
      over; a new one joins the set; then, unless it is inside the window,
      its timestamp is set, it is reconciled, counted and its frame saved. */
  function WebFold(st0: ScanState, rs: seq<Reading>, resolve: Resolver): (w: RunState)
    requires st0.db.tableExists
    ensures w.st.db.tableExists
    ensures WellFormed(st0.db) ==> WellFormed(w.st.db)
  {
    if |rs| == 0 then RunState({}, [], st0)
    else
      var w := WebFold(st0, rs[..|rs| - 1], resolve);
      var d := rs[|rs| - 1].d;
      if d.text in w.seen then w
      else if Suppressed(w.st.cache, d.text, d.at) then w.(seen := w.seen + {d.text})
      else RunState(w.seen + {d.text}, w.accepted + [rs[|rs| - 1]], GateStep(w.st, d, resolve))
  }

  lemma WebFoldSnoc(st0: ScanState, rs: seq<Reading>, r: Reading, resolve: Resolver)
    requires st0.db.tableExists
    ensures var w := WebFold(st0, rs, resolve);
      WebFold(st0, rs + [r], resolve) ==
        if r.d.text in w.seen then w
        else if Suppressed(w.st.cache, r.d.text, r.d.at) then w.(seen := w.seen + {r.d.text})
        else RunState(w.seen + {r.d.text}, w.accepted + [r], GateStep(w.st, r.d, resolve))
  {
    assert (rs + [r])[..|rs|] == rs;
  }

  /** The accepted readings: those of u whose clock is outside the window
      of the given timestamp map. */
  function Fresh(cache: Cache, u: seq<Reading>): (r: seq<Reading>)
    ensures |r| <= |u|
  {
    if |u| == 0 then []
    else
      var x := u[|u| - 1];
      Fresh(cache, u[..|u| - 1]) + (if Suppressed(cache, x.d.text, x.d.at) then [] else [x])
  }

  /** The run's set is every text of every reading handled, suppressed or
      not: texts join it before the window is checked. */
  lemma {:induction false} WebFoldSeen(st0: ScanState, rs: seq<Reading>, resolve: Resolver)
    requires st0.db.tableExists
    ensures WebFold(st0, rs, resolve).seen == KeysOf(rs, ReadingText)
  {
    if |rs| > 0 {
      WebFoldSeen(st0, rs[..|rs| - 1], resolve);
    }
  }

  /** A text the run has not met keeps its timestamp and its row. */
  lemma {:induction false} WebFoldUnseen(st0: ScanState, rs: seq<Reading>, resolve: Resolver, t: string)
    requires st0.db.tableExists && t !in KeysOf(rs, ReadingText)
    ensures SameAt(st0, WebFold(st0, rs, resolve).st, t)
  {
    if |rs| > 0 {
      WebFoldUnseen(st0, rs[..|rs| - 1], resolve, t);
    }
  }

  /** The accepted readings have distinct texts, all in the run's set; so
      barcode_detected_count, the number of frames saved, is at most the
      number of texts returned. */
  lemma {:induction false} WebFoldCounts(st0: ScanState, rs: seq<Reading>, resolve: Resolver)
    requires st0.db.tableExists
    ensures var w := WebFold(st0, rs, resolve);
      && Distinct(w.accepted, ReadingText)
      && KeysOf(w.accepted, ReadingText) <= w.seen
      && |w.accepted| <= |w.seen|
  {
    var w := WebFold(st0, rs, resolve);
    if |rs| > 0 {
      var p := rs[..|rs| - 1];
      var x := rs[|rs| - 1];
      var v := WebFold(st0, p, resolve);
      WebFoldCounts(st0, p, resolve);
      if x.d.text !in v.seen && !Suppressed(v.st.cache, x.d.text, x.d.at) {
        DistinctSnoc(v.accepted, x, ReadingText);
        KeysOfSnoc(v.accepted, x, ReadingText);
      }
    }
    DistinctKeysCount(w.accepted, ReadingText);
    SubsetCard(KeysOf(w.accepted, ReadingText), w.seen);
  }

  lemma SubsetCard<K>(a: set<K>, b: set<K>)
    requires a <= b
    ensures |a| <= |b|
  {
    assert b == a + (b - a);
  }

  /** Which readings are accepted is decided by the timestamps the run
      started with: exactly the first reading of each text, kept when its
      clock is outside that text's window at the start of the run. */
  lemma {:induction false} WebFoldAccepted(st0: ScanState, rs: seq<Reading>, resolve: Resolver)
    requires st0.db.tableExists
    ensures WebFold(st0, rs, resolve).accepted == Fresh(st0.cache, UniqueBy(rs, ReadingText))
  {
    if |rs| > 0 {
      var p := rs[..|rs| - 1];
      var x := rs[|rs| - 1];
      var v := WebFold(st0, p, resolve);
      WebFoldAccepted(st0, p, resolve);
      WebFoldSeen(st0, p, resolve);
      UniqueBySnoc(p, x, ReadingText);
      assert p + [x] == rs;
      if x.d.text !in v.seen {
        WebFoldUnseen(st0, p, resolve, x.d.text);
        var u := UniqueBy(p, ReadingText);
        assert (u + [x])[..|u|] == u;
      }
    }
  }

  /** The effect of a run on one text t it meets, judged by the clock of
      t's first reading: inside the window of the run's starting timestamp
      map, t is neither reconciled nor saved at any later point of the run
      (its timestamp and row stay as they were); outside it, t is accepted,
      its timestamp becomes that clock and it is reconciled exactly once. */
  lemma {:induction false} WebFoldOnText(st0: ScanState, rs: seq<Reading>, resolve: Resolver, t: string)
    requires st0.db.tableExists && t in KeysOf(rs, ReadingText)
    ensures var w := WebFold(st0, rs, resolve);
      var r := rs[FirstIndex(rs, ReadingText, t)].d;
      && (Suppressed(st0.cache, t, r.at) ==>
            SameAt(st0, w.st, t) && t !in KeysOf(w.accepted, ReadingText))
      && (!Suppressed(st0.cache, t, r.at) ==>
            && t in KeysOf(w.accepted, ReadingText)
            && t in w.st.cache && w.st.cache[t] == r.at
            && t in w.st.db.rows && w.st.db.rows[t].fields == Reconcile(st0.db, t, resolve).rows[t].fields)
  {
    var p := rs[..|rs| - 1];
    var x := rs[|rs| - 1];
    var v := WebFold(st0, p, resolve);
    var w := WebFold(st0, rs, resolve);
    assert p + [x] == rs;
    KeysOfSnoc(p, x, ReadingText);
    WebFoldSeen(st0, p, resolve);
    if t in KeysOf(p, ReadingText) {
      FirstIndexSnoc(p, x, ReadingText, t);
      WebFoldOnText(st0, p, resolve, t);
      if x.d.text != t && x.d.text !in v.seen {
        KeysOfSnoc(v.accepted, x, ReadingText);
        assert SameAt(v.st, w.st, t);
      }
    } else {
      assert x.d.text == t;
      assert FirstIndex(rs, ReadingText, t) == |p|;
      WebFoldFirstSighting(st0, p, x, resolve);
    }
  }

  /** The case of WebFoldOnText where the last reading is its text's first. */
  lemma WebFoldFirstSighting(st0: ScanState, p: seq<Reading>, x: Reading, resolve: Resolver)
    requires st0.db.tableExists && x.d.text !in KeysOf(p, ReadingText)
    ensures var w := WebFold(st0, p + [x], resolve);
      var t := x.d.text;
      && (Suppressed(st0.cache, t, x.d.at) ==>
            SameAt(st0, w.st, t) && t !in KeysOf(w.accepted, ReadingText))
      && (!Suppressed(st0.cache, t, x.d.at) ==>
            && t in KeysOf(w.accepted, ReadingText)
            && t in w.st.cache && w.st.cache[t] == x.d.at
            && t in w.st.db.rows && w.st.db.rows[t].fields == Reconcile(st0.db, t, resolve).rows[t].fields)
  {
    var t := x.d.text;
    var v := WebFold(st0, p, resolve);
    WebFoldSnoc(st0, p, x, resolve);
    WebFoldSeen(st0, p, resolve);
    WebFoldUnseen(st0, p, resolve, t);
    WebFoldCounts(st0, p, resolve);
    KeysOfSnoc(v.accepted, x, ReadingText);
    if !Suppressed(st0.cache, t, x.d.at) && t in st0.db.rows {
      var w := WebFold(st0, p + [x], resolve);
      var q := st0.db.rows[t].fields.quantity + 1;
      assert w.st.db.rows[t].fields == st0.db.rows[t].fields.(quantity := q);
    }
  }

  lemma {:induction false} ReadingsAtFrame(ds: seq<Detection>, idx: nat, i: nat)
    requires i < |ds|
    ensures ReadingsAt(ds, idx)[i] == Reading(ds[i], idx)
  {
    if i < |ds| - 1 {
      ReadingsAtFrame(ds[..|ds| - 1], idx, i);
    }
  }

  /** Every reading handled comes from an even-numbered frame. */
  lemma {:induction false} EvenFramesOnly(frames: seq<Frame>)
    ensures forall i :: 0 <= i < |WebReadings(frames)| ==> WebReadings(frames)[i].frameIdx % 2 == 0
  {
    if |frames| > 0 {
      var n := |frames| - 1;
      EvenFramesOnly(frames[..n]);
      var a := WebReadings(frames[..n]);
      var c := WebReadings(frames);
      if n % 2 == 0 {
        var u := UniqueBy(CleanAll(frames[n]), TextOf);
        var b := ReadingsAt(u, n);
        assert c == a + b;
        forall i | 0 <= i < |c| ensures c[i].frameIdx % 2 == 0 {
          if i < |a| {
            assert c[i] == a[i];
          } else {
            assert c[i] == b[i - |a|];
            ReadingsAtFrame(u, n, i - |a|);
          }
        }
      }
    }
  }

  /** What an odd-numbered frame holds never matters. */
  lemma {:induction false} OddFramesIgnored(frames: seq<Frame>, other: seq<Frame>)
    requires |frames| == |other|
    requires forall i :: 0 <= i < |frames| && i % 2 == 0 ==> frames[i] == other[i]
    ensures WebReadings(frames) == WebReadings(other)
  {
    if |frames| > 0 {
      var n := |frames| - 1;
      OddFramesIgnored(frames[..n], other[..n]);
    }
  }

  /** The frame names saved for the accepted readings. */
  function SavedNames(rs: seq<Reading>): (r: seq<string>)
    ensures |r| == |rs|
  {
    if |rs| == 0 then [] else SavedNames(rs[..|rs| - 1]) + [FrameFileName(rs[|rs| - 1].frameIdx)]
  }

  lemma SavedNamesSnoc(rs: seq<Reading>, r: Reading)
    ensures SavedNames(rs + [r]) == SavedNames(rs) + [FrameFileName(r.frameIdx)]
  {
    assert (rs + [r])[..|rs|] == rs;
  }

  /** The module state of website/barcode_scanner.py: its
      `recently_scanned` map and the database_website.py table. */
  class WebScanner {
    var recentlyScanned: Cache
    const store: Store

    ghost predicate Valid()
      reads this, store
    {
      store.Valid() && store.tableExists
    }

    function State(): ScanState
      reads this, store
    {
      ScanState(recentlyScanned, store.State())
    }

    /** Importing the script: initialize_database() and an empty map. */
    constructor (store: Store)
      requires store.Valid()
      modifies store
      ensures Valid() && this.store == store && recentlyScanned == map[]
      ensures store.State() == Initialized(old(store.State()))
    {
      this.store := store;
      recentlyScanned := map[];
      new;
      store.InitializeDatabase();
    }

    /** One pass of process_video's inner loop: a text already in the
        run's set is passed over; a new one joins it and, unless inside the
        window, is timestamped, reconciled, counted and its frame saved.
        Stated against the run's readings `prior` to this one. */
    method NoteReading(d: Detection, frameIdx: nat, across0: set<string>, count0: nat, saved0: seq<string>,
                       ghost st0: ScanState, ghost prior: seq<Reading>, resolve: Resolver)
      returns (across: set<string>, count: nat, saved: seq<string>)
      requires Valid() && st0.db.tableExists
      requires var w := WebFold(st0, prior, resolve);
        across0 == w.seen && count0 == |w.accepted| && saved0 == SavedNames(w.accepted) && State() == w.st
      modifies this, store
      ensures Valid()
      ensures var w := WebFold(st0, prior + [Reading(d, frameIdx)], resolve);
        across == w.seen && count == |w.accepted| && saved == SavedNames(w.accepted) && State() == w.st
    {
      ghost var w := WebFold(st0, prior, resolve);
      WebFoldSnoc(st0, prior, Reading(d, frameIdx), resolve);
      SavedNamesSnoc(w.accepted, Reading(d, frameIdx));
      across, count, saved := across0, count0, saved0;
      if d.text !in across {
        across := across + {d.text};
        var now := d.at;
        if d.text in recentlyScanned && now - recentlyScanned[d.text] < ScanResetTime {
          // skipping duplicate barcode
        } else {
          recentlyScanned := recentlyScanned[d.text := now];
          ReconcileIn(store, d.text, resolve);
          count := count + 1;
          saved := saved + [FrameFileName(frameIdx)];
        }
      }
    }

    /** The inner loop of process_video over one frame's kept readings,
        stated against the run's readings `before` this frame. */
    method NoteReadings(kept: seq<Detection>, frameIdx: nat, across0: set<string>, count0: nat, saved0: seq<string>,
                        ghost st0: ScanState, ghost before: seq<Reading>, resolve: Resolver)
      returns (across: set<string>, count: nat, saved: seq<string>)
      requires Valid() && st0.db.tableExists
      requires var w := WebFold(st0, before, resolve);
        across0 == w.seen && count0 == |w.accepted| && saved0 == SavedNames(w.accepted) && State() == w.st
      modifies this, store
      ensures Valid()
      ensures var w := WebFold(st0, before + ReadingsAt(kept, frameIdx), resolve);
        across == w.seen && count == |w.accepted| && saved == SavedNames(w.accepted) && State() == w.st
    {
      across, count, saved := across0, count0, saved0;
      var j := 0;
      assert kept[..0] == [] && kept[..|kept|] == kept;
      assert before + ReadingsAt(kept[..0], frameIdx) == before;
      while j < |kept|
        invariant 0 <= j <= |kept|
        invariant Valid()
        invariant var w := WebFold(st0, before + ReadingsAt(kept[..j], frameIdx), resolve);
          across == w.seen && count == |w.accepted| && saved == SavedNames(w.accepted) && State() == w.st
      {
        ghost var prior := before + ReadingsAt(kept[..j], frameIdx);
        ReadingsAtStep(kept, j, frameIdx);
        assert before + ReadingsAt(kept[..j + 1], frameIdx) == prior + [Reading(kept[j], frameIdx)];
        across, count, saved := NoteReading(kept[j], frameIdx, across, count, saved, st0, prior, resolve);
        j := j + 1;
      }
    }

    /** process_video: an unopened capture returns an empty list and does
        nothing else; otherwise even-numbered frames go through
        process_frame and their kept readings through the run's set and the
        window. Returns the run's texts, the count and the names written. */
    method ProcessVideo(isOpened: bool, frames: seq<Frame>, resolve: Resolver)
      returns (barcodes: set<string>, count: nat, saved: seq<string>)
      requires Valid()
      modifies this, store
      ensures Valid()
      ensures !isOpened ==> barcodes == {} && count == 0 && saved == [] && State() == old(State())
      ensures isOpened ==>
        var w := WebFold(old(State()), WebReadings(frames), resolve);
        barcodes == w.seen && count == |w.accepted| && saved == SavedNames(w.accepted) && State() == w.st
    {
      if !isOpened {
        return {}, 0, [];
      }
      var frameIdx := 0;
      count := 0;
      var across: set<string> := {};
      saved := [];
      ghost var st0 := State();
      while frameIdx < |frames|
        invariant 0 <= frameIdx <= |frames|
        invariant Valid()
        invariant var w := WebFold(st0, WebReadings(frames[..frameIdx]), resolve);
          across == w.seen && count == |w.accepted| && saved == SavedNames(w.accepted) && State() == w.st
      {
        WebReadingsStep(frames, frameIdx);
        if frameIdx % 2 != 0 {
          frameIdx := frameIdx + 1;
          continue;
        }
        var detected, kept, boxes := ProcessFrame(frames[frameIdx]);
        across, count, saved := NoteReadings(kept, frameIdx, across, count, saved,
                                             st0, WebReadings(frames[..frameIdx]), resolve);
        frameIdx := frameIdx + 1;
      }
      assert frames[..|frames|] == frames;
      barcodes := across;
    }
  }
}
