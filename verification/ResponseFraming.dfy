/** The protocol's splitter for a receive batch. */
module ResponseFraming {
  import opened Bytes
  import opened FrameChain
  import LineFraming
  import ContentLengthFraming
  import DaapFraming

  /** `protocol` is the lower-cased protocol name. Whatever it is, the frames tile the batch. */
  method SplitResponseFrames(protocol: string, data: bytes) returns (r: seq<Frame>)
    ensures Tiles(data, r, 0) && r != []
    ensures Forward(LineFraming.LineCut) && Forward(ContentLengthFraming.ContentCut) && Forward(DaapFraming.DaapCut)
    ensures protocol in {"ftp", "smtp"} ==> r == FramesOrBatch(Cuts(LineFraming.LineCut, data, 0, []), data)
    ensures protocol in {"http", "sip", "rtsp"} ==>
              r == FramesOrIncomplete(Cuts(ContentLengthFraming.ContentCut, data, 0, []), data)
    ensures protocol == "daap" ==> r == FramesOrBatch(Cuts(DaapFraming.DaapCut, data, 0, []), data)
    ensures protocol !in {"ftp", "smtp", "http", "sip", "rtsp", "daap"} ==> r == [Frame(data, 0, |data|, Framed)]
    ensures (exists f :: f in r && f.status.Incomplete?) ==>
              protocol in {"http", "sip", "rtsp"} && r == [Frame(data, 0, |data|, r[0].status)]
  {
    ContentLengthFraming.ContentForward();
    DaapFraming.DaapForward();
    if protocol in {"ftp", "smtp"} {
      r := LineFraming.LineFrames(data);
      CutFramesAreFramed(LineFraming.LineCut, data, 0, []);
    } else if protocol in {"http", "sip", "rtsp"} {
      r := ContentLengthFraming.ContentLengthFrames(data);
      CutFramesAreFramed(ContentLengthFraming.ContentCut, data, 0, []);
    } else if protocol == "daap" {
      r := DaapFraming.DaapFrames(data);
      CutFramesAreFramed(DaapFraming.DaapCut, data, 0, []);
    } else {
      r := [Frame(data, 0, |data|, Framed)];
    }
  }

  lemma {:induction false} CutFramesAreFramed(f: Cutter, data: bytes, c: nat, done: seq<Frame>)
    requires Forward(f) && c <= |data| && forall x :: x in done ==> x.status == Framed
    ensures Cuts(f, data, c, done).Whole? ==> forall x :: x in Cuts(f, data, c, done).frames ==> x.status == Framed
    decreases |data| - c
  {
    if c < |data| && f(data, c).At? {
      var end := f(data, c).end;
      CutFramesAreFramed(f, data, end, done + [Frame(data[c..end], c, end, Framed)]);
    }
  }
}
