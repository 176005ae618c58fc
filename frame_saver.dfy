/** Barcode_Scanner_Video_Processing_database/app_barcode_scanner_video_processing.py:
    its process_frame reports every reading as a {data, type} record, like
    the upload scanner's; its process_video keeps the first record of each
    decoded text (whatever its type) and writes the current frame as
    `detected_<frame index>.png` for every frame with a reading, new or not. */
module FrameSaver {
  import opened Dedup
  import opened Scan
  import opened UploadScanner

  /** This script's run key: the decoded text alone. */
  function DataId(f: Found): string { f.b.data }

  /** The artifact names of the frames with at least one reading. */
  function SavedNames(frames: seq<Frame>): (r: seq<string>)
    ensures |r| <= |frames|
  {
    if |frames| == 0 then []
    else SavedNames(frames[..|frames| - 1]) + (if |frames[|frames| - 1]| > 0 then [FrameFileName(|frames| - 1)] else [])
  }

  lemma SavedNamesStep(frames: seq<Frame>, idx: nat)
    requires idx < |frames|
    ensures SavedNames(frames[..idx + 1]) ==
      SavedNames(frames[..idx]) + (if |frames[idx]| > 0 then [FrameFileName(idx)] else [])
  {
    assert frames[..idx + 1][..idx] == frames[..idx];
  }

  /** The inner loop: a record enters the results when its text is new. */
  method NoteData(bs: seq<Barcode>, frameIdx: nat, seen0: set<string>, results0: seq<Barcode>,
                  ghost before: seq<Found>, ghost u0: seq<Found>)
    returns (seen: set<string>, results: seq<Barcode>, ghost u: seq<Found>)
    requires seen0 == KeysOf(before, DataId) && u0 == UniqueBy(before, DataId) && results0 == RecordsOf(u0)
    ensures seen == KeysOf(before + FoundAt(bs, frameIdx), DataId)
    ensures u == UniqueBy(before + FoundAt(bs, frameIdx), DataId)
    ensures results == RecordsOf(u)
  {
    seen, results, u := seen0, results0, u0;
    FoundAtEnds(before, bs, frameIdx);
    var j := 0;
    while j < |bs|
      invariant 0 <= j <= |bs|
      invariant seen == KeysOf(before + FoundAt(bs[..j], frameIdx), DataId)
      invariant u == UniqueBy(before + FoundAt(bs[..j], frameIdx), DataId)
      invariant results == RecordsOf(u)
    {
      var barcode := bs[j];
      ghost var all := before + FoundAt(bs[..j], frameIdx);
      FoundAtStep(before, bs, j, frameIdx);
      KeysOfSnoc(all, Found(barcode, frameIdx), DataId);
      UniqueBySnoc(all, Found(barcode, frameIdx), DataId);
      SnocSteps(u, Found(barcode, frameIdx), (n, i) => true);
      if barcode.data !in seen {
        seen := seen + {barcode.data};
        results := results + [barcode];
        u := u + [Found(barcode, frameIdx)];
      }
      j := j + 1;
    }
  }

  /** process_video: an unopened capture runs no iteration; otherwise the
      first record of each decoded text, in the order first read, and one
      write per frame with a reading. */
  method ProcessVideo(isOpened: bool, frames: seq<Frame>) returns (results: seq<Barcode>, saved: seq<string>)
    ensures !isOpened ==> results == [] && saved == []
    ensures isOpened ==>
      results == RecordsOf(UniqueBy(AllFound(frames), DataId)) && saved == SavedNames(frames)
  {
    var frameIdx := 0;
    results, saved := [], [];
    var seen: set<string> := {};
    ghost var u: seq<Found> := [];
    while isOpened && frameIdx < |frames|
      invariant 0 <= frameIdx <= |frames|
      invariant !isOpened ==> frameIdx == 0
      invariant seen == KeysOf(AllFound(frames[..frameIdx]), DataId)
      invariant u == UniqueBy(AllFound(frames[..frameIdx]), DataId)
      invariant results == RecordsOf(u) && saved == SavedNames(frames[..frameIdx])
    {
      var detected, detectedBarcodes, boxes := UploadScanner.ProcessFrame(frames[frameIdx]);
      AllFoundStep(frames, frameIdx);
      SavedNamesStep(frames, frameIdx);
      if detected {
        seen, results, u := NoteData(detectedBarcodes, frameIdx, seen, results, AllFound(frames[..frameIdx]), u);
        saved := saved + [FrameFileName(frameIdx)];
      } else {
        assert FoundAt(detectedBarcodes, frameIdx) == [];
        assert AllFound(frames[..frameIdx + 1]) == AllFound(frames[..frameIdx]);
      }
      frameIdx := frameIdx + 1;
    }
    if isOpened {
      assert frames[..|frames|] == frames;
    }
  }

  /** A frame's artifact is written iff the frame has a reading, whether or
      not any of its texts is new to the run. */
  lemma {:induction false} SavedIff(frames: seq<Frame>, i: nat)
    ensures FrameFileName(i) in SavedNames(frames) <==> i < |frames| && |frames[i]| > 0
  {
    if |frames| > 0 {
      var n := |frames| - 1;
      SavedIff(frames[..n], i);
      if FrameFileName(i) == FrameFileName(n) {
        FrameFileNameInjective(i, n);
      }
    }
  }

  /** Every written name belongs to a frame with a reading, and no frame
      is written twice. */
  lemma {:induction false} SavedNamesDistinct(frames: seq<Frame>)
    ensures forall k :: 0 <= k < |SavedNames(frames)| ==>
      exists i :: 0 <= i < |frames| && |frames[i]| > 0 && SavedNames(frames)[k] == FrameFileName(i)
    ensures Distinct(SavedNames(frames), (x: string) => x)
  {
    if |frames| > 0 {
      var n := |frames| - 1;
      var p := SavedNames(frames[..n]);
      SavedNamesDistinct(frames[..n]);
      var r := SavedNames(frames);
      assert r == p + (if |frames[n]| > 0 then [FrameFileName(n)] else []);
      forall k | 0 <= k < |r|
        ensures exists i :: 0 <= i < |frames| && |frames[i]| > 0 && r[k] == FrameFileName(i)
      {
        if k < |p| {
          var i :| 0 <= i < n && |frames[..n][i]| > 0 && p[k] == FrameFileName(i);
          assert frames[..n][i] == frames[i] && r[k] == p[k];
        } else {
          assert 0 <= n < |frames| && |frames[n]| > 0 && r[k] == FrameFileName(n);
        }
      }
      if |frames[n]| > 0 {
        SavedIff(frames[..n], n);
        forall k | 0 <= k < |p| ensures p[k] != FrameFileName(n) {
          assert p[k] in p;
        }
      }
    } else {
      assert SavedNames(frames) == [];
    }
  }

  /** The records returned have pairwise different texts, one per text
      read in the video, each the first record read with that text. */
  lemma FrameSaverResults(frames: seq<Frame>)
    ensures var fs := AllFound(frames);
      var rs := RecordsOf(UniqueBy(fs, DataId));
      && (forall i, j :: 0 <= i < j < |rs| ==> rs[i].data != rs[j].data)
      && |rs| == |KeysOf(fs, DataId)|
      && forall i :: 0 <= i < |rs| ==>
           rs[i].data in KeysOf(fs, DataId) && rs[i] == fs[FirstIndex(fs, DataId, rs[i].data)].b
  {
    var fs := AllFound(frames);
    var u := UniqueBy(fs, DataId);
    var rs := RecordsOf(u);
    UniqueByFirstOccurrences(fs, DataId);
    UniqueByCount(fs, DataId);
    forall i | 0 <= i < |rs|
      ensures rs[i].data in KeysOf(fs, DataId) && rs[i] == fs[FirstIndex(fs, DataId, rs[i].data)].b
    {
      RecordsOfAt(u, i);
    }
    forall i, j | 0 <= i < j < |rs|
      ensures rs[i].data != rs[j].data
    {
      RecordsOfAt(u, i);
      RecordsOfAt(u, j);
    }
  }
}
