/** One direction of a TCP connection as its writer sees it.  Both the client and the relay write
    whole frames, shut the socket down when a write comes up short, and may go on writing to the
    shut socket, which takes nothing any more. */
module Links {
  import opened Wire

  /** One write of a frame, and how many of its bytes the socket took. */
  datatype Sent = Sent(frame: Bytes, accepted: nat)

  /** The bytes taken, from the return value of the write. */
  function Accepted(result: int): nat
  {
    if result < 0 then 0 else result
  }

  predicate Whole(s: Sent)
  {
    s.accepted == |s.frame|
  }

  function Taken(s: Sent): Bytes
  {
    if s.accepted < |s.frame| then s.frame[..s.accepted] else s.frame
  }

  /** The bytes on the connection. */
  function StreamOf(ws: seq<Sent>): (s: Bytes)
  {
    if ws == [] then [] else Taken(ws[0]) + StreamOf(ws[1..])
  }

  /** The frames that went through completely. */
  function WholeFrames(ws: seq<Sent>): (fs: seq<Bytes>)
  {
    if ws == [] then [] else (if Whole(ws[0]) then [ws[0].frame] else []) + WholeFrames(ws[1..])
  }

  /** Every write is a frame, and nothing is accepted after a short write. */
  ghost predicate LinkOk(ws: seq<Sent>)
  {
    && (forall w <- ws :: IsFrame(w.frame, 0) && w.accepted <= |w.frame|)
    && (forall i, j | 0 <= i < j < |ws| && !Whole(ws[i]) :: ws[j].accepted == 0)
  }

  /** Every write so far went through. */
  ghost predicate Clean(ws: seq<Sent>)
  {
    forall w <- ws :: Whole(w)
  }

  lemma {:induction false} WholeAppend(ws: seq<Sent>, w: Sent)
    ensures WholeFrames(ws + [w]) == WholeFrames(ws) + if Whole(w) then [w.frame] else []
  {
    if ws != [] {
      assert (ws + [w])[1..] == ws[1..] + [w];
      WholeAppend(ws[1..], w);
    }
  }

  /** A write that respects the shutdown keeps the link in order. */
  lemma LinkExtend(ws: seq<Sent>, w: Sent)
    requires LinkOk(ws) && IsFrame(w.frame, 0) && w.accepted <= |w.frame|
    requires Clean(ws) || w.accepted == 0
    ensures LinkOk(ws + [w])
  {
    var all := ws + [w];
    forall i, j | 0 <= i < j < |all| && !Whole(all[i])
      ensures all[j].accepted == 0
    {
      assert all[i] == ws[i] && ws[i] in ws;
      assert j < |ws| ==> all[j] == ws[j];
    }
    forall x <- all ensures IsFrame(x.frame, 0) && x.accepted <= |x.frame| {
      assert x in ws || x == w;
    }
  }

  lemma {:induction false} NothingAccepted(ws: seq<Sent>)
    requires LinkOk(ws) && forall w <- ws :: w.accepted == 0
    ensures StreamOf(ws) == [] && WholeFrames(ws) == []
  {
    if ws != [] {
      assert IsFrame(ws[0].frame, 0);
      NothingAccepted(ws[1..]);
    }
  }

  /** A truncated frame gives up nothing. */
  lemma CutIsNotReady(f: Bytes, k: nat)
    requires IsFrame(f, 0) && k < |f|
    ensures !Ready(f[..k], 0) && WhyStopped(f[..k], 0) == NeedMore
  {
    if k >= HEADER_SIZE {
      assert f[..k][..HEADER_SIZE] == f[..HEADER_SIZE];
      LenFromHeader(f[..k], f);
    }
  }

  /** The connection carries the whole frames followed by at most one truncated frame. */
  lemma {:induction false} StreamShape(ws: seq<Sent>) returns (cut: Bytes)
    requires LinkOk(ws)
    ensures Splits(StreamOf(ws), 0, WholeFrames(ws), cut)
    ensures WhyStopped(cut, 0) == NeedMore
    ensures cut == [] || exists w <- ws :: !Whole(w) && cut == Taken(w)
  {
    hide FrameLen;
    if ws == [] {
      cut := [];
    } else {
      var f, k := ws[0].frame, ws[0].accepted;
      assert IsFrame(f, 0);
      if Whole(ws[0]) {
        cut := StreamShape(ws[1..]);
        assert StreamOf(ws)[|f|..] == StreamOf(ws[1..]);
        SplitsCons(StreamOf(ws), 0, f, WholeFrames(ws[1..]), cut);
      } else {
        forall w <- ws[1..] ensures w.accepted == 0 {
          var j :| 0 < j < |ws| && ws[j] == w;
        }
        NothingAccepted(ws[1..]);
        cut := f[..k];
        CutIsNotReady(f, k);
        assert StreamOf(ws) == Concat([]) + cut;
      }
    }
  }

  /** What the other end of the link can possibly deliver, whatever part of the stream it has read:
      a prefix of the frames that went through; all of them once it has read everything. */
  lemma ReceiverSeesWholeFrames(ws: seq<Sent>, q: Bytes)
    requires LinkOk(ws) && q <= StreamOf(ws)
    ensures Parse(q, 0).frames <= WholeFrames(ws)
    ensures q == StreamOf(ws) ==> Parse(q, 0).frames == WholeFrames(ws)
    ensures Parse(q, 0).stop == NeedMore
  {
    var s := StreamOf(ws);
    var cut := StreamShape(ws);
    ParseUnique(s, 0, WholeFrames(ws), cut);
    StopIsRestStop(s, 0);
    ParsePrefixMonotone(q, s, 0);
    assert s == q + s[|q|..];
    if Parse(q, 0).stop != NeedMore {
      NoFurther(q, s[|q|..], 0);
    }
  }
}
