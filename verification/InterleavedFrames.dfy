/** Frames over the interleaving machine: what the producer encodes, the consumer decodes. */
module InterleavedFrames {
  import opened Bytes
  import opened Results
  import opened Ring
  import opened DataFrames
  import opened Interleaving
  import Undisturbed

  ghost predicate IsEncoding(body: seq<byte>) {
    exists fs: Fields :: DistinctKeys(fs) && EncodeFrame(fs) == Ok(body)
  }

  /** The producer puts frames: what its turns carry are encodings. */
  ghost predicate PutsFrames(turns: seq<Turn>) {
    forall i :: 0 <= i < |turns| && turns[i].Produce? ==> IsEncoding(turns[i].body)
  }

  ghost predicate CarriesEncoding(p: seq<byte>) {
    |p| >= FRAME_HEADER_SIZE && IsEncoding(Body(p))
  }

  /** What the producer holds, and what it sent, are encodings. */
  ghost predicate OnlyEncodings(w: Writer, sent: seq<seq<byte>>) {
    && match w {
         case WCapacity(body, _) => IsEncoding(body)
         case WUnderCapacity(body) => IsEncoding(body)
         case WSpace(body, _) => IsEncoding(body)
         case WStore(p, _) => CarriesEncoding(p)
         case _ => true
       }
    && forall i :: 0 <= i < |sent| ==> CarriesEncoding(sent[i])
  }

  lemma WriterKeepsEncodings(s: State, body: seq<byte>, crc: Crc)
    requires s.Shaped() && OnlyEncodings(s.w, s.sent) && IsEncoding(body)
    ensures OnlyEncodings(WStep(s, body, crc).w, WStep(s, body, crc).sent)
  {
    if s.w.WSpace? && FRAME_HEADER_SIZE + |s.w.body| < WORD_LIMIT && s.frameCounter < WORD_LIMIT {
      PacketIsWellFormed(s.w.body, s.frameCounter, crc);
    }
  }

  lemma ReaderKeepsEncodings(s: State, crc: Crc)
    requires s.Shaped()
    ensures RStep(s, crc).w == s.w && RStep(s, crc).sent == s.sent
  {
  }

  lemma {:induction false} RunKeepsEncodings(s: State, turns: seq<Turn>, crc: Crc)
    requires s.Shaped() && OnlyEncodings(s.w, s.sent) && PutsFrames(turns)
    ensures OnlyEncodings(Run(s, turns, crc).w, Run(s, turns, crc).sent)
    decreases |turns|
  {
    if |turns| > 0 {
      match turns[0] {
        case Produce(body) => WriterKeepsEncodings(s, body, crc);
        case Consume => ReaderKeepsEncodings(s, crc);
      }
      RunKeepsEncodings(Step(s, turns[0], crc), turns[1..], crc);
    }
  }

  /** A frame that encodes to the body of a packet. */
  ghost function FrameIn(p: seq<byte>): (fs: Fields)
    requires CarriesEncoding(p)
    ensures DistinctKeys(fs) && EncodeFrame(fs) == Ok(Body(p))
  {
    var fs: Fields :| DistinctKeys(fs) && EncodeFrame(fs) == Ok(Body(p));
    fs
  }

  /** `bodies` decode to the first frames of `frames`, in order, values trimmed. */
  predicate DecodeInOrder(bodies: seq<seq<byte>>, frames: seq<Fields>) {
    |bodies| <= |frames| && forall i :: 0 <= i < |bodies| ==> DecodeFrame(bodies[i]) == Ok(TrimFields(frames[i]))
  }

  lemma BodiesDecode(packets: seq<seq<byte>>, frames: seq<Fields>, bodies: seq<seq<byte>>)
    requires |bodies| <= |packets| == |frames|
    requires forall i :: 0 <= i < |packets| ==> |packets[i]| >= FRAME_HEADER_SIZE
    requires forall i :: 0 <= i < |packets| ==> DistinctKeys(frames[i]) && EncodeFrame(frames[i]) == Ok(Body(packets[i]))
    requires forall i :: 0 <= i < |bodies| ==> bodies[i] == Body(packets[i])
    ensures DecodeInOrder(bodies, frames)
  {
    forall i | 0 <= i < |bodies|
      ensures DecodeFrame(bodies[i]) == Ok(TrimFields(frames[i]))
    {
      FrameRoundTrip(frames[i]);
    }
  }

  /** Under every clean interleaving the consumer decodes what it receives, to the
      frames the producer published, in order and trimmed, and `get` never raises; and
      left alone it gets all of them that were counted. */
  lemma EveryInterleavingKeepsFrames(size: nat, turns: seq<Turn>, crc: Crc) returns (frames: seq<Fields>, m: nat)
    requires MIN_Q_SIZE <= size <= WORD_LIMIT
    requires Clean(Start(size), turns, crc) && PutsFrames(turns)
    ensures var s := Run(Start(size), turns, crc);
            var s' := Run(s, Undisturbed.Times(Consume, m), crc);
            && !s.r.RFailed?
            && AllWellFormed(s.sent, crc) && |frames| == |s.sent|
            && (forall i :: 0 <= i < |frames| ==> EncodeFrame(frames[i]) == Ok(Body(s.sent[i])))
            && DecodeInOrder(s.received, frames)
            && |s'.received| == s.q.allocCount && DecodeInOrder(s'.received, frames)
  {
    var s := Run(Start(size), turns, crc);
    EveryInterleavingIsFifo(size, turns, crc);
    RunKeepsEncodings(Start(size), turns, crc);
    frames := seq(|s.sent|, i requires 0 <= i < |s.sent| => FrameIn(s.sent[i]));
    m := Undisturbed.EveryRunCanBeDrained(size, turns, crc);
    BodiesDecode(s.sent, frames, s.received);
    BodiesDecode(s.sent, frames, Run(s, Undisturbed.Times(Consume, m), crc).received);
  }
}
