/** What the scanner scripts share: the decoder's detections, the
    five-second re-scan window over the `recently_scanned` timestamp map,
    and the reconciliation of a decoded text against the inventory table. */
module Scan {
  import opened Dedup
  import opened Inventory
  import Decimal

  /** One pyzbar reading: the symbol type name (obj.type), the decoded text
      (obj.data as UTF-8), the number of points of obj.polygon, and the
      clock reading, in whole seconds, that the scanner takes when it
      handles this reading. */
  datatype Detection = Detection(kind: string, text: string, polygonLen: nat, at: int)

  /** The decoder's readings for one frame, in decode order. */
  type Frame = seq<Detection>

  /** The key read with cv2.waitKey after a frame is shown: 'q', 'r', or
      anything else (including no key). */
  datatype Key = QuitKey | ResetKey | OtherKey

  /** One successful cap.read() of a live loop and the key polled after it. */
  datatype Tick = Tick(frame: Frame, key: Key)

  /** A text handled by a per-run loop, with the index of its frame. */
  datatype Sighting = Sighting(text: string, frameIdx: nat)

  /** The interactive prompts for a product the table does not know,
      as a function of the decoded productID. */
  type Resolver = string -> Fields

  /** SCAN_RESET_TIME. */
  const ScanResetTime: int := 5

  /** The TTL cache of the scanner scripts: text -> last accepted clock reading. */
  type Cache = map<string, int>

  function TextOf(d: Detection): string { d.text }

  function SightingText(s: Sighting): string { s.text }

  /** A reading is suppressed when its text was accepted less than
      SCAN_RESET_TIME seconds ago (strict comparison). */
  predicate Suppressed(cache: Cache, text: string, now: int)
  {
    text in cache && now - cache[text] < ScanResetTime
  }

  function Texts(ds: seq<Detection>): (r: seq<string>)
    ensures |r| == |ds| && forall i :: 0 <= i < |ds| ==> r[i] == ds[i].text
  {
    seq(|ds|, i requires 0 <= i < |ds| => ds[i].text)
  }

  /** Whether a bounding box is drawn for each reading: only a 4-point
      polygon is drawn. */
  function Boxes(ds: seq<Detection>): (r: seq<bool>)
    ensures |r| == |ds| && forall i :: 0 <= i < |ds| ==> (r[i] <==> ds[i].polygonLen == 4)
  {
    seq(|ds|, i requires 0 <= i < |ds| => ds[i].polygonLen == 4)
  }

  lemma TextsBoxesSnoc(ds: seq<Detection>, d: Detection)
    ensures Texts(ds + [d]) == Texts(ds) + [d.text]
    ensures Boxes(ds + [d]) == Boxes(ds) + [d.polygonLen == 4]
  {
    assert Texts(ds + [d]) == Texts(ds) + [d.text];
    assert Boxes(ds + [d]) == Boxes(ds) + [d.polygonLen == 4];
  }

  /** The texts of one frame as sightings at frame index idx. */
  function SightingsAt(texts: seq<string>, idx: nat): (r: seq<Sighting>)
    ensures |r| == |texts| && forall i :: 0 <= i < |texts| ==> r[i] == Sighting(texts[i], idx)
  {
    seq(|texts|, i requires 0 <= i < |texts| => Sighting(texts[i], idx))
  }

  /** `f"detected_{frame_idx:04d}.png"`. */
  function FrameFileName(idx: nat): string
  {
    "detected_" + Decimal.Pad4(idx) + ".png"
  }

  /** The artifact name is "detected_", the index zero-padded to at least
      four digits (which read back as the index), then ".png". */
  lemma FrameFileNameFormat(idx: nat)
    ensures var r := FrameFileName(idx);
      && |r| >= 17 && r[..9] == "detected_" && r[|r| - 4..] == ".png"
      && (forall i :: 9 <= i < |r| - 4 ==> Decimal.IsDigit(r[i]))
      && Decimal.DigitsValue(r[9..|r| - 4]) == idx
  {
    var r := FrameFileName(idx);
    var p := Decimal.Pad4(idx);
    assert r[9..|r| - 4] == p;
    Decimal.Pad4RoundTrip(idx);
  }

  /** Two frames never share an artifact name. */
  lemma FrameFileNameInjective(i: nat, j: nat)
    requires FrameFileName(i) == FrameFileName(j)
    ensures i == j
  {
    var a, b := Decimal.Pad4(i), Decimal.Pad4(j);
    assert |a| == |b|;
    assert a == FrameFileName(i)[9..9 + |a|];
    assert b == FrameFileName(j)[9..9 + |b|];
    Decimal.Pad4Injective(i, j);
  }

  lemma SightingsStep(before: seq<Sighting>, texts: seq<string>, j: nat, idx: nat)
    requires j < |texts|
    ensures before + SightingsAt(texts[..j + 1], idx) == (before + SightingsAt(texts[..j], idx)) + [Sighting(texts[j], idx)]
  {
    assert SightingsAt(texts[..j + 1], idx) == SightingsAt(texts[..j], idx) + [Sighting(texts[j], idx)];
  }

  lemma SightingsEnds(before: seq<Sighting>, texts: seq<string>, idx: nat)
    ensures before + SightingsAt(texts[..0], idx) == before
    ensures before + SightingsAt(texts[..|texts|], idx) == before + SightingsAt(texts, idx)
  {
    assert texts[..|texts|] == texts;
  }

  /** The artifact name for each sighting: the name of its frame. */
  function FrameFileNames(ss: seq<Sighting>): (r: seq<string>)
    ensures |r| == |ss| && forall i :: 0 <= i < |ss| ==> r[i] == FrameFileName(ss[i].frameIdx)
  {
    seq(|ss|, i requires 0 <= i < |ss| => FrameFileName(ss[i].frameIdx))
  }

  lemma FrameFileNamesSnoc(ss: seq<Sighting>, s: Sighting)
    ensures FrameFileNames(ss + [s]) == FrameFileNames(ss) + [FrameFileName(s.frameIdx)]
  {
    assert FrameFileNames(ss + [s]) == FrameFileNames(ss) + [FrameFileName(s.frameIdx)];
  }

  /** The search / update / add sequence run for an accepted text: a hit
      adds 1 to the quantity, a miss inserts the resolver's fields under
      the text as productID. */
  function Reconcile(db: Db, text: string, resolve: Resolver): (r: Db)
    requires db.tableExists
    ensures r.tableExists && text in r.rows
    ensures r.rows.Keys == db.rows.Keys + {text}
    ensures text in db.rows ==>
      && r.rows[text].fields.quantity == db.rows[text].fields.quantity + 1
      && r.rows[text].fields == db.rows[text].fields.(quantity := r.rows[text].fields.quantity)
      && r.rows[text].rowId == db.rows[text].rowId
    ensures text !in db.rows ==> r.rows[text].fields == resolve(text)
    ensures forall k :: k in db.rows && k != text ==> r.rows[k] == db.rows[k]
    ensures WellFormed(db) ==> WellFormed(r)
  {
    if Lookup(db, text).Some? then QuantityChanged(db, text, 1) else Inserted(db, text, resolve(text))
  }

  /** The same sequence run against the store: search_product, then
      update_quantity(text, 1) on a hit or add_product with the resolver's
      fields on a miss. */
  method ReconcileIn(store: Store, text: string, resolve: Resolver)
    requires store.Valid() && store.tableExists
    modifies store
    ensures store.Valid() && store.State() == Reconcile(old(store.State()), text, resolve)
  {
    var product := store.SearchProduct(text);
    if product.Ok? && product.value.Some? {
      var _ := store.UpdateQuantity(text, 1);
    } else {
      var f := resolve(text);
      var _ := store.AddProduct(f.category, text, f.name, f.price, f.quantity, f.returnPeriod);
    }
  }

  /** What the TTL gate and the store hold. */
  datatype ScanState = ScanState(cache: Cache, db: Db)

  /** The entries of text in the cache and in the table agree in s and t. */
  ghost predicate SameAt(s: ScanState, t: ScanState, text: string)
  {
    && (text in s.cache <==> text in t.cache)
    && (text in s.cache ==> s.cache[text] == t.cache[text])
    && (text in s.db.rows <==> text in t.db.rows)
    && (text in s.db.rows ==> s.db.rows[text] == t.db.rows[text])
  }

  /** One reading through the TTL gate: a suppressed reading changes
      nothing; otherwise its clock reading is recorded and it is reconciled. */
  function GateStep(st: ScanState, d: Detection, resolve: Resolver): (r: ScanState)
    requires st.db.tableExists
    ensures r.db.tableExists
    ensures Suppressed(st.cache, d.text, d.at) ==> r == st
    ensures !Suppressed(st.cache, d.text, d.at) ==>
      r.cache == st.cache[d.text := d.at] && r.db == Reconcile(st.db, d.text, resolve)
    ensures forall t :: t != d.text ==> SameAt(st, r, t)
    ensures WellFormed(st.db) ==> WellFormed(r.db)
  {
    if Suppressed(st.cache, d.text, d.at) then st
    else ScanState(st.cache[d.text := d.at], Reconcile(st.db, d.text, resolve))
  }

  /** The readings of ds through the gate, in order. */
  function GateAll(st: ScanState, ds: seq<Detection>, resolve: Resolver): (r: ScanState)
    requires st.db.tableExists
    ensures r.db.tableExists
    ensures WellFormed(st.db) ==> WellFormed(r.db)
  {
    if |ds| == 0 then st
    else GateStep(GateAll(st, ds[..|ds| - 1], resolve), ds[|ds| - 1], resolve)
  }

  lemma GateAllSnoc(st: ScanState, ds: seq<Detection>, d: Detection, resolve: Resolver)
    requires st.db.tableExists
    ensures GateAll(st, ds + [d], resolve) == GateStep(GateAll(st, ds, resolve), d, resolve)
  {
    assert (ds + [d])[..|ds|] == ds;
  }

  /** A text none of the readings carry keeps its cache entry and its row. */
  lemma {:induction false} GateAllElsewhere(st: ScanState, ds: seq<Detection>, resolve: Resolver, t: string)
    requires st.db.tableExists
    requires forall i :: 0 <= i < |ds| ==> ds[i].text != t
    ensures SameAt(st, GateAll(st, ds, resolve), t)
  {
    if |ds| > 0 {
      GateAllElsewhere(st, ds[..|ds| - 1], resolve, t);
    }
  }

  /** What the gate leaves behind for text t read at clock at, measured
      against the state st before the frame: a reading inside the window
      leaves t's timestamp and row as they were; otherwise the timestamp is
      the reading's clock and the row's columns are one reconciliation of
      st's. */
  ghost predicate GateOutcome(st: ScanState, r: ScanState, t: string, at: int, resolve: Resolver)
    requires st.db.tableExists
  {
    && (Suppressed(st.cache, t, at) ==> SameAt(st, r, t))
    && (!Suppressed(st.cache, t, at) ==>
          && t in r.cache && r.cache[t] == at
          && t in r.db.rows && r.db.rows[t].fields == Reconcile(st.db, t, resolve).rows[t].fields)
  }

  lemma GateOutcomeKept(st: ScanState, a: ScanState, b: ScanState, t: string, at: int, resolve: Resolver)
    requires st.db.tableExists
    requires GateOutcome(st, a, t, at, resolve) && SameAt(a, b, t)
    ensures GateOutcome(st, b, t, at, resolve)
  {
  }

  /** The effect of a frame on one of its texts, when the frame's readings
      have distinct texts (as after intra-frame deduplication): a reading
      inside the window leaves that text's timestamp and row as they were;
      otherwise the timestamp becomes the reading's clock and the row's
      columns are exactly what one reconciliation makes of them (so a known
      product's quantity grows by exactly 1 per frame). */
  lemma {:induction false} GateAllAt(st: ScanState, ds: seq<Detection>, resolve: Resolver, i: nat)
    requires st.db.tableExists
    requires Distinct(ds, TextOf) && i < |ds|
    ensures GateOutcome(st, GateAll(st, ds, resolve), ds[i].text, ds[i].at, resolve)
  {
    var n := |ds| - 1;
    var p := ds[..n];
    var t := ds[i].text;
    if i == n {
      forall j | 0 <= j < |p| ensures p[j].text != t {
        assert TextOf(ds[j]) != TextOf(ds[n]);
      }
      assert ds == p + [ds[n]];
      GateAllLast(st, p, ds[n], resolve);
    } else {
      assert Distinct(p, TextOf);
      GateAllAt(st, p, resolve, i);
      assert ds[n].text != t by {
        assert TextOf(ds[i]) != TextOf(ds[n]);
      }
      GateOutcomeKept(st, GateAll(st, p, resolve), GateAll(st, ds, resolve), t, ds[i].at, resolve);
    }
  }

  /** The last of readings with distinct texts meets the timestamps its
      text had before them. */
  lemma GateAllLast(st: ScanState, p: seq<Detection>, d: Detection, resolve: Resolver)
    requires st.db.tableExists
    requires forall j :: 0 <= j < |p| ==> p[j].text != d.text
    ensures GateOutcome(st, GateAll(st, p + [d], resolve), d.text, d.at, resolve)
  {
    var t := d.text;
    GateAllSnoc(st, p, d, resolve);
    GateAllElsewhere(st, p, resolve, t);
    var mid := GateAll(st, p, resolve);
    if Suppressed(st.cache, t, d.at) {
      assert Suppressed(mid.cache, t, d.at);
    } else {
      assert !Suppressed(mid.cache, t, d.at);
      var r := Reconcile(mid.db, t, resolve);
      var r0 := Reconcile(st.db, t, resolve);
      assert r.rows[t].fields == r0.rows[t].fields;
    }
  }
}
