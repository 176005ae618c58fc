/** Barcode_Scanner_Video_Processing/barcode_scanner_video_processing_merged.py:
    process_frame overwrites the module-level `decoded_text` with each
    reading's text in turn, so after a frame it holds the frame's last
    reading; the camera loop saves the frame, and appends that text to its
    list, when the frame had a reading and the text is not yet in the list. */
module MergedScanner {
  import opened Wrappers
  import opened Dedup
  import opened Scan
  import opened LiveScanner

  /** The last text of a frame with a reading. */
  function LastText(f: Frame): string
    requires |f| > 0
  {
    f[|f| - 1].text
  }

  /** What the loop has built: the `detected_barcodes` list and the names of
      the frames written. */
  datatype Log = Log(texts: seq<string>, saved: seq<string>)

  /** One frame's effect on the log: the save-if-new rule. */
  function LogStep(l: Log, f: Frame, idx: nat): (r: Log)
    ensures |f| > 0 && LastText(f) !in l.texts ==>
      r == Log(l.texts + [LastText(f)], l.saved + [FrameFileName(idx)])
    ensures !(|f| > 0 && LastText(f) !in l.texts) ==> r == l
  {
    if |f| > 0 && LastText(f) !in l.texts then Log(l.texts + [LastText(f)], l.saved + [FrameFileName(idx)])
    else l
  }

  /** The log after the frames. */
  function MergedLog(frames: seq<Frame>): Log
  {
    if |frames| == 0 then Log([], [])
    else LogStep(MergedLog(frames[..|frames| - 1]), frames[|frames| - 1], |frames| - 1)
  }

  lemma MergedLogStep(frames: seq<Frame>, idx: nat)
    requires idx < |frames|
    ensures MergedLog(frames[..idx + 1]) == LogStep(MergedLog(frames[..idx]), frames[idx], idx)
  {
    assert frames[..idx + 1][..idx] == frames[..idx];
  }

  /** Each frame saves at most one name, and only with a new listed text. */
  lemma {:induction false} MergedLogLength(frames: seq<Frame>)
    ensures |MergedLog(frames).texts| == |MergedLog(frames).saved| <= |frames|
  {
    if |frames| > 0 {
      MergedLogLength(frames[..|frames| - 1]);
    }
  }

  /** The value of `decoded_text` after the frames, starting from init:
      the last reading of the last frame that had one. */
  function Latest(frames: seq<Frame>, init: Option<string>): (r: Option<string>)
    ensures r.Some? <==> init.Some? || exists i :: 0 <= i < |frames| && |frames[i]| > 0
  {
    if |frames| == 0 then init
    else
      var f := frames[|frames| - 1];
      var p := Latest(frames[..|frames| - 1], init);
      if |f| > 0 then Some(LastText(f))
      else
        assert forall i :: 0 <= i < |frames| - 1 ==> frames[..|frames| - 1][i] == frames[i];
        p
  }

  lemma LatestStep(frames: seq<Frame>, idx: nat, init: Option<string>)
    requires idx < |frames|
    ensures Latest(frames[..idx + 1], init) ==
      if |frames[idx]| > 0 then Some(LastText(frames[idx])) else Latest(frames[..idx], init)
  {
    assert frames[..idx + 1][..idx] == frames[..idx];
  }

  /** The script's module state. */
  class Merged {
    /** `decoded_text`; None until a reading has been made. */
    var decodedText: Option<string>

    constructor ()
      ensures decodedText == None
    {
      decodedText := None;
    }

    /** process_frame: the flag says whether the frame had a reading, and
        `decoded_text` ends as the text of the last one (unchanged without
        one). Also returns, per reading, whether its box was drawn. */
    method ProcessFrame(frame: Frame) returns (detected: bool, boxes: seq<bool>)
      modifies this
      ensures detected <==> |frame| > 0
      ensures boxes == Boxes(frame)
      ensures decodedText == (if |frame| > 0 then Some(LastText(frame)) else old(decodedText))
    {
      detected := false;
      boxes := [];
      var i := 0;
      while i < |frame|
        invariant 0 <= i <= |frame|
        invariant detected <==> i > 0
        invariant boxes == Boxes(frame[..i])
        invariant decodedText == (if i > 0 then Some(frame[i - 1].text) else old(decodedText))
      {
        var d := frame[i];
        detected := true;
        TextsBoxesSnoc(frame[..i], d);
        assert frame[..i + 1] == frame[..i] + [d];
        boxes := boxes + [d.polygonLen == 4];
        decodedText := Some(d.text);
        i := i + 1;
      }
      assert frame[..|frame|] == frame;
    }

    /** The script body: a choice other than '0' exits, an unopened camera
        processes nothing; otherwise frames are read until the first 'q',
        each detecting frame whose last text is new being saved and its
        text appended and counted. */
    method Run(choice: string, isOpened: bool, ticks: seq<Tick>)
      returns (detectedBarcodes: seq<string>, count: nat, saved: seq<string>)
      modifies this
      ensures choice != "0" || !isOpened ==>
        detectedBarcodes == [] && count == 0 && saved == [] && decodedText == old(decodedText)
      ensures choice == "0" && isOpened ==>
        var fs := Frames(ticks[..StopAt(ticks)]);
        && detectedBarcodes == MergedLog(fs).texts
        && saved == MergedLog(fs).saved
        && count == |detectedBarcodes|
        && decodedText == Latest(fs, old(decodedText))
    {
      if choice != "0" {
        return [], 0, [];
      }
      detectedBarcodes, count, saved := [], 0, [];
      if !isOpened {
        return;
      }
      var frameIdx := 0;
      ghost var d0 := decodedText;
      while frameIdx < |ticks|
        invariant 0 <= frameIdx <= |ticks|
        invariant forall j :: 0 <= j < frameIdx ==> ticks[j].key != QuitKey
        invariant detectedBarcodes == MergedLog(Frames(ticks[..frameIdx])).texts
        invariant saved == MergedLog(Frames(ticks[..frameIdx])).saved
        invariant count == |detectedBarcodes|
        invariant decodedText == Latest(Frames(ticks[..frameIdx]), d0)
      {
        var tick := ticks[frameIdx];
        FramesStep(ticks, frameIdx);
        MergedLogStep(Frames(ticks[..frameIdx + 1]), frameIdx);
        LatestStep(Frames(ticks[..frameIdx + 1]), frameIdx, d0);
        var detected, boxes := ProcessFrame(tick.frame);
        if detected && decodedText.value !in detectedBarcodes {
          detectedBarcodes := detectedBarcodes + [decodedText.value];
          count := count + 1;
          saved := saved + [FrameFileName(frameIdx)];
        }
        if tick.key == QuitKey {
          StopAtFirstQuit(ticks, frameIdx);
          return;
        }
        assert forall j :: 0 <= j < frameIdx + 1 ==> ticks[j].key != QuitKey by {
          assert ticks[frameIdx].key != QuitKey;
        }
        frameIdx := frameIdx + 1;
      }
      StopAtNoQuit(ticks);
      assert ticks[..|ticks|] == ticks;
    }
  }

  lemma FramesStep(ticks: seq<Tick>, i: nat)
    requires i < |ticks|
    ensures Frames(ticks[..i + 1]) == Frames(ticks[..i]) + [ticks[i].frame]
    ensures Frames(ticks[..i + 1])[..i] == Frames(ticks[..i])
    ensures Frames(ticks[..i + 1])[i] == ticks[i].frame
  {
    assert ticks[..i + 1][..i] == ticks[..i];
  }

  /** The list never holds a text twice, and there is one saved frame per
      listed text, so the count, which follows the list, counts saved frames. */
  lemma {:induction false} MergedDistinct(frames: seq<Frame>)
    ensures Distinct(MergedLog(frames).texts, (t: string) => t)
    ensures |MergedLog(frames).saved| == |MergedLog(frames).texts|
  {
    if |frames| > 0 {
      var n := |frames| - 1;
      var l := MergedLog(frames[..n]);
      MergedDistinct(frames[..n]);
      if |frames[n]| > 0 && LastText(frames[n]) !in l.texts {
        forall i | 0 <= i < |l.texts| ensures l.texts[i] != LastText(frames[n]) {
          assert l.texts[i] in l.texts;
        }
      }
    }
  }

  /** Only last readings enter the list: the k-th listed text is the last
      reading of a detecting frame, and the k-th saved frame is that frame. */
  lemma {:induction false} MergedOnlyLast(frames: seq<Frame>)
    ensures |MergedLog(frames).saved| == |MergedLog(frames).texts|
    ensures forall k :: 0 <= k < |MergedLog(frames).texts| ==>
      exists i :: 0 <= i < |frames| && |frames[i]| > 0 &&
                  MergedLog(frames).texts[k] == LastText(frames[i]) && MergedLog(frames).saved[k] == FrameFileName(i)
  {
    MergedDistinct(frames);
    if |frames| > 0 {
      var n := |frames| - 1;
      var l := MergedLog(frames[..n]);
      var r := MergedLog(frames);
      MergedOnlyLast(frames[..n]);
      forall k | 0 <= k < |r.texts|
        ensures exists i :: 0 <= i < |frames| && |frames[i]| > 0 &&
                            r.texts[k] == LastText(frames[i]) && r.saved[k] == FrameFileName(i)
      {
        if k < |l.texts| {
          var i :| 0 <= i < n && |frames[..n][i]| > 0 &&
                   l.texts[k] == LastText(frames[..n][i]) && l.saved[k] == FrameFileName(i);
          assert frames[..n][i] == frames[i];
          assert r.texts[k] == l.texts[k] && r.saved[k] == l.saved[k];
        } else {
          assert |frames[n]| > 0 && r.texts[k] == LastText(frames[n]) && r.saved[k] == FrameFileName(n);
        }
      }
    } else {
      assert MergedLog(frames).texts == [];
    }
  }

  /** Every detecting frame's last text ends up in the list (appended then,
      or already there). */
  lemma {:induction false} MergedCovers(frames: seq<Frame>, i: nat)
    requires i < |frames| && |frames[i]| > 0
    ensures LastText(frames[i]) in MergedLog(frames).texts
  {
    var n := |frames| - 1;
    var l := MergedLog(frames[..n]);
    if i < n {
      assert frames[..n][i] == frames[i];
      MergedCovers(frames[..n], i);
    }
  }

  /** A reading that is not its frame's last never enters the list: with
      "A" before "B" in one frame only "B" is kept, and `decoded_text` is "B". */
  lemma NonLastIgnored()
    ensures var frames := [[Detection("QRCODE", "A", 4, 0), Detection("QRCODE", "B", 4, 0)]];
      && MergedLog(frames).texts == ["B"]
      && MergedLog(frames).saved == [FrameFileName(0)]
      && Latest(frames, None) == Some("B")
  {
    var frames := [[Detection("QRCODE", "A", 4, 0), Detection("QRCODE", "B", 4, 0)]];
    assert frames[..0] == [];
    assert MergedLog(frames) == LogStep(Log([], []), frames[0], 0);
  }
}
