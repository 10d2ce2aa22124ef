/** An update or a delta as the frames that carry it. */
module Transmission {
  import opened Words
  import opened TopK
  import opened Sparse
  import opened Frame
  import Wired = Frame
  import FragmentPool
  import opened Reassembly

  /** The frame of fragment f. */
  function FragmentFrame(kind: u8, sender: u16, round: u8, entries: seq<Entry>, f: nat): Frame
    requires |entries| <= MAX_ENTRIES && f < FragmentCount(|entries|)
  {
    FragmentsCover(entries);
    Encoded(kind, sender, round, f, FragmentCount(|entries|), Serialized(Chunk(entries, f))).value
  }

  /** The bytes of the first n fragments, in order. */
  function Frames(kind: u8, sender: u16, round: u8, entries: seq<Entry>, n: nat): (w: seq<bytes>)
    requires |entries| <= MAX_ENTRIES && n <= FragmentCount(|entries|)
    ensures |w| == n
  {
    seq(n, f requires 0 <= f < n => Wire(FragmentFrame(kind, sender, round, entries, f)))
  }

  /** A receiver decodes the very fragment that was sent, with the entries of its chunk. */
  lemma FragmentOnAir(kind: u8, sender: u16, round: u8, entries: seq<Entry>, f: nat)
    requires |entries| <= MAX_ENTRIES && f < FragmentCount(|entries|)
    ensures var g := FragmentFrame(kind, sender, round, entries, f);
            Decoded(Wire(g)) == Ok(g) && |Wire(g)| <= FRAME_MAX
            && g.kind == kind && g.fragIndex == f && g.fragTotal == FragmentCount(|entries|)
            && g.payload == Serialized(Chunk(entries, f))
            && IsUpdate(entries) && IsFragment(g, sender, entries)
  {
    FragmentsCover(entries);
    DecodeWire(kind, sender, round, f, FragmentCount(|entries|), Serialized(Chunk(entries, f)));
  }

  lemma FragmentFrameFits(kind: u8, sender: u16, round: u8, entries: seq<Entry>, f: nat)
    requires |entries| <= MAX_ENTRIES && f < FragmentCount(|entries|)
    ensures var g := FragmentFrame(kind, sender, round, entries, f);
            IsUpdate(entries) && IsFragment(g, sender, entries) && g.fragIndex == f && FragmentPool.Fits(g)
  {
    FragmentOnAir(kind, sender, round, entries, f);
    hide FragmentFrame;
    FragmentFits(FragmentFrame(kind, sender, round, entries, f), sender, entries);
  }

  /** Cutting out fragment f, framing it, and laying it out for the radio. */
  method MakeFragment(kind: u8, sender: u16, round: u8, entries: seq<Entry>, f: nat) returns (wire: bytes)
    requires |entries| <= MAX_ENTRIES && f < FragmentCount(|entries|)
    ensures wire == Wire(FragmentFrame(kind, sender, round, entries, f))
  {
    FragmentsCover(entries);
    var payload, ok := WriteFragment(entries, f);
    var frame := Wired.Encode(kind, sender, round, f, FragmentCount(|entries|), payload);
    wire := Wire(frame.value);
  }

  lemma NoFrames(kind: u8, sender: u16, round: u8, entries: seq<Entry>)
    requires |entries| <= MAX_ENTRIES
    ensures Frames(kind, sender, round, entries, 0) == []
  {
  }

  lemma FramesGrow(kind: u8, sender: u16, round: u8, entries: seq<Entry>, f: nat)
    requires |entries| <= MAX_ENTRIES && f < FragmentCount(|entries|)
    ensures Frames(kind, sender, round, entries, f + 1) ==
              Frames(kind, sender, round, entries, f) + [Wire(FragmentFrame(kind, sender, round, entries, f))]
  {
    hide FragmentFrame, Wire, FragmentCount;
  }

  /** Whether write number f succeeds; writes beyond the list do. */
  predicate WriteOk(writes: seq<bool>, f: nat) {
    f < |writes| ==> writes[f]
  }

  /** Every fragment is written once, in order, whether or not earlier writes failed. */
  method SendFragments(kind: u8, sender: u16, round: u8, entries: seq<Entry>, writes: seq<bool>)
    returns (sent: seq<bytes>, ok: bool)
    requires |entries| <= MAX_ENTRIES
    ensures sent == Frames(kind, sender, round, entries, FragmentCount(|entries|))
    ensures ok <==> forall f :: 0 <= f < |sent| ==> WriteOk(writes, f)
  {
    hide FragmentFrame, Wire, FragmentCount, Frames;
    sent := [];
    var errors: nat := 0;
    NoFrames(kind, sender, round, entries);
    for f := 0 to FragmentCount(|entries|)
      invariant sent == Frames(kind, sender, round, entries, f)
      invariant errors == 0 <==> forall g :: 0 <= g < f ==> WriteOk(writes, g)
    {
      FramesGrow(kind, sender, round, entries, f);
      var wire := MakeFragment(kind, sender, round, entries, f);
      sent := sent + [wire];
      if !WriteOk(writes, f) {
        errors := errors + 1;
      }
    }
    ok := errors == 0;
  }
}
