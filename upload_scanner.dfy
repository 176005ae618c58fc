/** website/app_barcode_scanner_video_processing.py: process_frame reports
    every reading as a {data, type} record, duplicates included;
    process_video keeps the first record of each `type_data` key across the
    video and writes, for each, the current frame under a name made of the
    type and the data with every character other than an ASCII letter,
    digit, '-' or '_' removed. A failed write is reported and skipped. */
module UploadScanner {
  import opened Wrappers
  import opened Dedup
  import opened Scan
  import opened Text

  /** One {"data": ..., "type": ...} record. */
  datatype Barcode = Barcode(data: string, kind: string)

  /** The run's key for a record: f"{type}_{data}". */
  function BarcodeId(b: Barcode): string
  {
    b.kind + "_" + b.data
  }

  /** The records of a frame's readings, in decode order. */
  function Records(f: Frame): (r: seq<Barcode>)
    ensures |r| == |f|
  {
    if |f| == 0 then [] else Records(f[..|f| - 1]) + [Barcode(f[|f| - 1].text, f[|f| - 1].kind)]
  }

  lemma RecordsStep(f: Frame, i: nat)
    requires i < |f|
    ensures Records(f[..i + 1]) == Records(f[..i]) + [Barcode(f[i].text, f[i].kind)]
  {
    assert f[..i + 1][..i] == f[..i];
  }

  /** Records keeps every reading, duplicates included, each as its text
      and type. */
  lemma {:induction false} RecordsAt(f: Frame, i: nat)
    requires i < |f|
    ensures Records(f)[i] == Barcode(f[i].text, f[i].kind)
  {
    if i < |f| - 1 {
      RecordsAt(f[..|f| - 1], i);
    }
  }

  /** process_frame: every reading becomes a record, in decode order and
      without deduplication; the flag is whether there is any. Also
      returns, per reading, whether its box was drawn. */
  method ProcessFrame(frame: Frame) returns (detected: bool, barcodes: seq<Barcode>, boxes: seq<bool>)
    ensures barcodes == Records(frame) && boxes == Boxes(frame)
    ensures detected <==> |barcodes| > 0
  {
    barcodes, boxes := [], [];
    var i := 0;
    while i < |frame|
      invariant 0 <= i <= |frame|
      invariant barcodes == Records(frame[..i]) && boxes == Boxes(frame[..i])
    {
      var d := frame[i];
      RecordsStep(frame, i);
      TextsBoxesSnoc(frame[..i], d);
      assert frame[..i + 1] == frame[..i] + [d];
      boxes := boxes + [d.polygonLen == 4];
      barcodes := barcodes + [Barcode(d.text, d.kind)];
      i := i + 1;
    }
    assert frame[..|frame|] == frame;
    detected := |barcodes| > 0;
  }

  /** str.isalnum on the ASCII range. */
  predicate IsAlnum(c: char)
  {
    'a' <= c <= 'z' || 'A' <= c <= 'Z' || '0' <= c <= '9'
  }

  /** The characters a file name keeps. */
  predicate Safe(c: char)
  {
    IsAlnum(c) || c == '-' || c == '_'
  }

  /** `"".join(c for c in data if c.isalnum() or c in ('-', '_'))`. */
  function Sanitize(s: string): (r: string)
    ensures |r| <= |s|
  {
    if |s| == 0 then ""
    else Sanitize(s[..|s| - 1]) + (if Safe(s[|s| - 1]) then [s[|s| - 1]] else "")
  }

  /** Sanitizing distributes over concatenation. */
  lemma {:induction false} SanitizeAppend(a: string, b: string)
    ensures Sanitize(a + b) == Sanitize(a) + Sanitize(b)
    decreases |b|
  {
    if |b| > 0 {
      var p := b[..|b| - 1];
      assert (a + b)[..|a + b| - 1] == a + p;
      SanitizeAppend(a, p);
    } else {
      assert a + b == a;
    }
  }

  /** Every character of the result is safe, and a text made only of
      safe characters is its own sanitized form (and only such a text is). */
  lemma {:induction false} SanitizeSafe(s: string)
    ensures forall i :: 0 <= i < |Sanitize(s)| ==> Safe(Sanitize(s)[i])
    ensures Sanitize(s) == s <==> forall i :: 0 <= i < |s| ==> Safe(s[i])
  {
    if |s| > 0 {
      var p := s[..|s| - 1];
      SanitizeSafe(p);
      assert s == p + [s[|s| - 1]];
      if !Safe(s[|s| - 1]) {
        assert |Sanitize(s)| < |s|;
      } else if Sanitize(s) == s {
        assert Sanitize(p) == p;
      }
    }
  }

  /** Sanitizing twice is sanitizing once. */
  lemma SanitizeIdempotent(s: string)
    ensures Sanitize(Sanitize(s)) == Sanitize(s)
  {
    SanitizeSafe(s);
    SanitizeSafe(Sanitize(s));
  }

  /** The sanitized data keeps characters of the data, in order. */
  lemma {:induction false} SanitizeSubseq(s: string)
    ensures IsSubseq(Sanitize(s), s)
  {
    if |s| > 0 {
      var p := s[..|s| - 1];
      var c := s[|s| - 1];
      SanitizeSubseq(p);
      SubseqRefl([c]);
      if Safe(c) {
        SubseqConcat(Sanitize(p), p, [c], [c]);
      } else {
        SubseqConcat(Sanitize(p), p, [], [c]);
        assert Sanitize(p) + [] == Sanitize(p);
      }
      assert p + [c] == s;
    }
  }

  /** The file a new record is written to: f"{type}_{safe_data}.png". */
  function RecordFileName(b: Barcode): string
  {
    b.kind + "_" + Sanitize(b.data) + ".png"
  }

  /** The file name is the type, '_', the sanitized data, which holds
      only safe characters, then ".png". */
  lemma RecordFileNameFormat(b: Barcode)
    ensures var r := RecordFileName(b);
      && |r| >= |b.kind| + 5 && r[..|b.kind| + 1] == b.kind + "_" && r[|r| - 4..] == ".png"
      && r[|b.kind| + 1..|r| - 4] == Sanitize(b.data)
      && (forall i :: |b.kind| + 1 <= i < |r| - 4 ==> Safe(r[i]))
  {
    var r := RecordFileName(b);
    SanitizeSafe(b.data);
    assert r[|b.kind| + 1..|r| - 4] == Sanitize(b.data);
    forall i | |b.kind| + 1 <= i < |r| - 4 ensures Safe(r[i]) {
      assert r[i] == Sanitize(b.data)[i - |b.kind| - 1];
    }
  }

  /** Two different keys can name the same file, in which case the later
      write replaces the earlier image: "QRCODE_a!" and "QRCODE_a?" both
      write QRCODE_a.png. */
  lemma FileNameCollision()
    ensures BarcodeId(Barcode("a!", "QRCODE")) != BarcodeId(Barcode("a?", "QRCODE"))
    ensures RecordFileName(Barcode("a!", "QRCODE")) == RecordFileName(Barcode("a?", "QRCODE")) == "QRCODE_a.png"
  {
    assert BarcodeId(Barcode("a!", "QRCODE"))[8] != BarcodeId(Barcode("a?", "QRCODE"))[8];
    assert "a!"[..1] == "a" && "a?"[..1] == "a" && "a"[..0] == "";
    assert Sanitize("a!") == "a";
    assert Sanitize("a?") == "a";
  }

  /** A record with the index of the frame it was read in. */
  datatype Found = Found(b: Barcode, frameIdx: nat)

  function FoundId(f: Found): string { BarcodeId(f.b) }

  /** The records of one frame, at frame index idx. */
  function FoundAt(bs: seq<Barcode>, idx: nat): (r: seq<Found>)
    ensures |r| == |bs|
  {
    if |bs| == 0 then [] else FoundAt(bs[..|bs| - 1], idx) + [Found(bs[|bs| - 1], idx)]
  }

  lemma FoundAtStep(before: seq<Found>, bs: seq<Barcode>, j: nat, idx: nat)
    requires j < |bs|
    ensures before + FoundAt(bs[..j + 1], idx) == (before + FoundAt(bs[..j], idx)) + [Found(bs[j], idx)]
  {
    assert bs[..j + 1][..j] == bs[..j];
  }

  lemma FoundAtEnds(before: seq<Found>, bs: seq<Barcode>, idx: nat)
    ensures before + FoundAt(bs[..0], idx) == before
    ensures before + FoundAt(bs[..|bs|], idx) == before + FoundAt(bs, idx)
  {
    assert bs[..|bs|] == bs;
  }

  /** Every record of the video, frame after frame. */
  function AllFound(frames: seq<Frame>): seq<Found>
  {
    if |frames| == 0 then []
    else AllFound(frames[..|frames| - 1]) + FoundAt(Records(frames[|frames| - 1]), |frames| - 1)
  }

  lemma AllFoundStep(frames: seq<Frame>, idx: nat)
    requires idx < |frames|
    ensures AllFound(frames[..idx + 1]) == AllFound(frames[..idx]) + FoundAt(Records(frames[idx]), idx)
  {
    assert frames[..idx + 1][..idx] == frames[..idx];
  }

  /** The records of the found ones. */
  function RecordsOf(fs: seq<Found>): (r: seq<Barcode>)
    ensures |r| == |fs|
  {
    if |fs| == 0 then [] else RecordsOf(fs[..|fs| - 1]) + [fs[|fs| - 1].b]
  }

  /** One attempted write: the file name, the frame whose image it holds,
      and whether cv2.imwrite succeeded. */
  datatype Save = Save(name: string, frameIdx: nat, ok: bool)

  /** The writes attempted for the new records; `written` says, for a
      file name and frame index, whether the write succeeds. */
  function SavesOf(fs: seq<Found>, written: (string, nat) -> bool): (r: seq<Save>)
    ensures |r| == |fs|
  {
    if |fs| == 0 then []
    else
      var f := fs[|fs| - 1];
      SavesOf(fs[..|fs| - 1], written) + [Save(RecordFileName(f.b), f.frameIdx, written(RecordFileName(f.b), f.frameIdx))]
  }

  lemma SnocSteps(fs: seq<Found>, f: Found, written: (string, nat) -> bool)
    ensures RecordsOf(fs + [f]) == RecordsOf(fs) + [f.b]
    ensures SavesOf(fs + [f], written) == SavesOf(fs, written) + [Save(RecordFileName(f.b), f.frameIdx, written(RecordFileName(f.b), f.frameIdx))]
  {
    assert (fs + [f])[..|fs|] == fs;
  }

  /** The failures process_video can raise before reading a frame. */
  datatype VideoError = FileNotFound | CannotOpen

  /** The inner loop of process_video over one frame's records. */
  method NoteRecords(bs: seq<Barcode>, frameIdx: nat, unique0: set<string>, results0: seq<Barcode>, saves0: seq<Save>,
                     ghost before: seq<Found>, ghost u0: seq<Found>, written: (string, nat) -> bool)
    returns (unique: set<string>, results: seq<Barcode>, saves: seq<Save>, ghost u: seq<Found>)
    requires unique0 == KeysOf(before, FoundId) && u0 == UniqueBy(before, FoundId)
    requires results0 == RecordsOf(u0) && saves0 == SavesOf(u0, written)
    ensures unique == KeysOf(before + FoundAt(bs, frameIdx), FoundId)
    ensures u == UniqueBy(before + FoundAt(bs, frameIdx), FoundId)
    ensures results == RecordsOf(u) && saves == SavesOf(u, written)
  {
    unique, results, saves, u := unique0, results0, saves0, u0;
    FoundAtEnds(before, bs, frameIdx);
    var j := 0;
    while j < |bs|
      invariant 0 <= j <= |bs|
      invariant unique == KeysOf(before + FoundAt(bs[..j], frameIdx), FoundId)
      invariant u == UniqueBy(before + FoundAt(bs[..j], frameIdx), FoundId)
      invariant results == RecordsOf(u) && saves == SavesOf(u, written)
    {
      var barcode := bs[j];
      ghost var seen := before + FoundAt(bs[..j], frameIdx);
      FoundAtStep(before, bs, j, frameIdx);
      KeysOfSnoc(seen, Found(barcode, frameIdx), FoundId);
      UniqueBySnoc(seen, Found(barcode, frameIdx), FoundId);
      SnocSteps(u, Found(barcode, frameIdx), written);
      var barcodeId := barcode.kind + "_" + barcode.data;
      if barcodeId !in unique {
        unique := unique + {barcodeId};
        results := results + [barcode];
        var filename := barcode.kind + "_" + Sanitize(barcode.data) + ".png";
        // cv2.imwrite inside try/except: a failure is reported, never raised
        var ok := written(filename, frameIdx);
        saves := saves + [Save(filename, frameIdx, ok)];
        u := u + [Found(barcode, frameIdx)];
      }
      j := j + 1;
    }
  }

  /** process_video: a missing path raises FileNotFoundError and an
      unopenable file RuntimeError, before any frame is read; otherwise
      returns the first record of each `type_data` key, in the order first
      read, with one attempted write per returned record, whether or not
      earlier writes failed. */
  method ProcessVideo(pathExists: bool, isOpened: bool, frames: seq<Frame>, written: (string, nat) -> bool)
    returns (r: Result<seq<Barcode>, VideoError>, saves: seq<Save>)
    ensures !pathExists ==> r == Err(FileNotFound) && saves == []
    ensures pathExists && !isOpened ==> r == Err(CannotOpen) && saves == []
    ensures pathExists && isOpened ==>
      var u := UniqueBy(AllFound(frames), FoundId);
      r == Ok(RecordsOf(u)) && saves == SavesOf(u, written)
  {
    if !pathExists {
      return Err(FileNotFound), [];
    }
    if !isOpened {
      return Err(CannotOpen), [];
    }
    var unique: set<string> := {};
    var results: seq<Barcode> := [];
    saves := [];
    ghost var u: seq<Found> := [];
    var frameCount := 0;
    while frameCount < |frames|
      invariant 0 <= frameCount <= |frames|
      invariant unique == KeysOf(AllFound(frames[..frameCount]), FoundId)
      invariant u == UniqueBy(AllFound(frames[..frameCount]), FoundId)
      invariant results == RecordsOf(u) && saves == SavesOf(u, written)
    {
      var detected, frameBarcodes, boxes := ProcessFrame(frames[frameCount]);
      AllFoundStep(frames, frameCount);
      if detected {
        unique, results, saves, u := NoteRecords(frameBarcodes, frameCount, unique, results, saves,
                                                 AllFound(frames[..frameCount]), u, written);
      } else {
        assert FoundAt(frameBarcodes, frameCount) == [];
        assert AllFound(frames[..frameCount + 1]) == AllFound(frames[..frameCount]);
      }
      frameCount := frameCount + 1;
    }
    assert frames[..|frames|] == frames;
    r := Ok(results);
  }

  lemma {:induction false} RecordsOfAt(fs: seq<Found>, i: nat)
    requires i < |fs|
    ensures RecordsOf(fs)[i] == fs[i].b
  {
    if i < |fs| - 1 {
      RecordsOfAt(fs[..|fs| - 1], i);
    }
  }

  lemma {:induction false} FoundAtAt(bs: seq<Barcode>, idx: nat, j: nat)
    requires j < |bs|
    ensures FoundAt(bs, idx)[j] == Found(bs[j], idx)
  {
    if j < |bs| - 1 {
      FoundAtAt(bs[..|bs| - 1], idx, j);
    }
  }

  /** The records process_video returns have pairwise different
      `type_data` keys, one per key read in the video, and each is the
      first record read with its key. */
  lemma UploadResults(frames: seq<Frame>)
    ensures var fs := AllFound(frames);
      var rs := RecordsOf(UniqueBy(fs, FoundId));
      && Distinct(rs, BarcodeId)
      && |rs| == |KeysOf(fs, FoundId)|
      && forall i :: 0 <= i < |rs| ==>
           BarcodeId(rs[i]) in KeysOf(fs, FoundId) && rs[i] == fs[FirstIndex(fs, FoundId, BarcodeId(rs[i]))].b
  {
    var fs := AllFound(frames);
    var u := UniqueBy(fs, FoundId);
    var rs := RecordsOf(u);
    UniqueByFirstOccurrences(fs, FoundId);
    UniqueByCount(fs, FoundId);
    forall i | 0 <= i < |rs|
      ensures BarcodeId(rs[i]) in KeysOf(fs, FoundId) && rs[i] == fs[FirstIndex(fs, FoundId, BarcodeId(rs[i]))].b
    {
      RecordsOfAt(u, i);
    }
    forall i, j | 0 <= i < j < |rs|
      ensures BarcodeId(rs[i]) != BarcodeId(rs[j])
    {
      RecordsOfAt(u, i);
      RecordsOfAt(u, j);
    }
  }

  /** Every `type_data` key read in any frame is among the keys of the
      video, so a record with that key is returned. */
  lemma {:induction false} ReadKeyReturned(frames: seq<Frame>, i: nat, j: nat)
    requires i < |frames| && j < |frames[i]|
    ensures frames[i][j].kind + "_" + frames[i][j].text in KeysOf(AllFound(frames), FoundId)
  {
    var n := |frames| - 1;
    var last := FoundAt(Records(frames[n]), n);
    KeysOfAppend(AllFound(frames[..n]), last, FoundId);
    if i < n {
      ReadKeyReturned(frames[..n], i, j);
    } else {
      RecordsAt(frames[n], j);
      FoundAtAt(Records(frames[n]), n, j);
      KeysOfContains(last, FoundId, j);
    }
  }

  lemma {:induction false} SavesOfAt(fs: seq<Found>, written: (string, nat) -> bool, i: nat)
    requires i < |fs|
    ensures SavesOf(fs, written)[i] == Save(RecordFileName(fs[i].b), fs[i].frameIdx, written(RecordFileName(fs[i].b), fs[i].frameIdx))
  {
    if i < |fs| - 1 {
      SavesOfAt(fs[..|fs| - 1], written, i);
    }
  }

  /** One write per returned record, in the same order: the i-th write
      goes to the i-th record's file name, holds the frame that record was
      first read in, and its outcome is only reported. */
  lemma SavesMatchResults(fs: seq<Found>, written: (string, nat) -> bool)
    ensures |SavesOf(fs, written)| == |RecordsOf(fs)|
    ensures forall i :: 0 <= i < |fs| ==>
      && SavesOf(fs, written)[i].name == RecordFileName(RecordsOf(fs)[i])
      && SavesOf(fs, written)[i].frameIdx == fs[i].frameIdx
      && SavesOf(fs, written)[i].ok == written(SavesOf(fs, written)[i].name, fs[i].frameIdx)
  {
    forall i | 0 <= i < |fs|
      ensures && SavesOf(fs, written)[i].name == RecordFileName(RecordsOf(fs)[i])
              && SavesOf(fs, written)[i].frameIdx == fs[i].frameIdx
              && SavesOf(fs, written)[i].ok == written(SavesOf(fs, written)[i].name, fs[i].frameIdx)
    {
      SavesOfAt(fs, written, i);
      RecordsOfAt(fs, i);
    }
  }

  /** The key includes the type: the same data decoded as two symbologies
      is returned (and written) twice. */
  lemma SameDataTwoTypes()
    ensures var frames := [[Detection("QRCODE", "X", 4, 0), Detection("CODE128", "X", 4, 0)]];
      RecordsOf(UniqueBy(AllFound(frames), FoundId)) == [Barcode("X", "QRCODE"), Barcode("X", "CODE128")]
  {
    var frames := [[Detection("QRCODE", "X", 4, 0), Detection("CODE128", "X", 4, 0)]];
    var q := Found(Barcode("X", "QRCODE"), 0);
    var c := Found(Barcode("X", "CODE128"), 0);
    TwoTypesFound();
    assert FoundId(q) != FoundId(c) by {
      assert FoundId(q)[0] != FoundId(c)[0];
    }
    assert [q, c][..1] == [q];
    UniqueBySnoc([q], c, FoundId);
    assert [q] + [c] == [q, c];
    UniqueBySnoc([], q, FoundId);
    assert [] + [q] == [q];
    SnocSteps([q], c, (n, i) => true);
    SnocSteps([], q, (n, i) => true);
  }

  lemma TwoTypesFound()
    ensures var frames := [[Detection("QRCODE", "X", 4, 0), Detection("CODE128", "X", 4, 0)]];
      AllFound(frames) == [Found(Barcode("X", "QRCODE"), 0), Found(Barcode("X", "CODE128"), 0)]
  {
    var frames := [[Detection("QRCODE", "X", 4, 0), Detection("CODE128", "X", 4, 0)]];
    var q := Found(Barcode("X", "QRCODE"), 0);
    var c := Found(Barcode("X", "CODE128"), 0);
    assert frames[..0] == [];
    TwoTypesRecords();
    var bs := Records(frames[0]);
    assert bs[..1][..0] == [] && bs[..2] == bs;
    FoundAtStep([], bs, 0, 0);
    FoundAtStep([], bs, 1, 0);
    assert FoundAt(bs, 0) == [q, c];
  }

  lemma TwoTypesRecords()
    ensures Records([Detection("QRCODE", "X", 4, 0), Detection("CODE128", "X", 4, 0)])
      == [Barcode("X", "QRCODE"), Barcode("X", "CODE128")]
  {
    var f := [Detection("QRCODE", "X", 4, 0), Detection("CODE128", "X", 4, 0)];
    RecordsStep(f, 0);
    RecordsStep(f, 1);
    assert f[..1][..0] == [];
    assert f[..2] == f;
  }
}
