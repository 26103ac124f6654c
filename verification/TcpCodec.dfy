// How the TCP scanner hides a 32-bit probe id in source port and sequence number, and when port and
// acknowledgement number of an answer give it back.
module TcpCodec {
  import opened Arith

  const TWO_21 := 0x20_0000
  const PADDING := 2048
  const FIRST_PORT := 61440

  // The low 21 bits of the id, spread over the sequence space.
  function SeqOf(id: int): int
  {
    (id % TWO_21) * PADDING
  }

  // The high 11 bits of the id.
  function PortOf(id: int): int
  {
    id / TWO_21 + FIRST_PORT
  }

  lemma CodecFits(id: int)
    requires 0 <= id < TWO_32
    ensures 0 <= SeqOf(id) <= TWO_32 - PADDING && FIRST_PORT <= PortOf(id) < FIRST_PORT + PADDING
  {
  }

  lemma CodecInvertible(id: int)
    requires 0 <= id < TWO_32
    ensures (PortOf(id) - FIRST_PORT) * TWO_21 + SeqOf(id) / PADDING == id
  {
  }

  // Which answer an acknowledgement number announces, for a query payload of L bytes.
  datatype Phase = SynAckPhase | AnswerPhase | FinPhase

  function Offset(L: nat, phase: Phase): int
  {
    match phase
    case SynAckPhase => 1
    case AnswerPhase => 1 + L
    case FinPhase => 2 + L
  }

  function AckOf(L: nat, id: int, phase: Phase): int
  {
    (SeqOf(id) + Offset(L, phase)) % TWO_32
  }

  ghost predicate Unambiguous(L: nat)
  {
    forall i, j, p, q |
      0 <= i < TWO_32 && 0 <= j < TWO_32 && PortOf(i) == PortOf(j) && AckOf(L, i, p) == AckOf(L, j, q) ::
      i == j && p == q
  }

  lemma AckModPadding(L: nat, id: int, phase: Phase)
    requires 0 <= id < TWO_32
    ensures AckOf(L, id, phase) % PADDING == Offset(L, phase) % PADDING
  {
    var s := SeqOf(id) + Offset(L, phase);
    assert s == TWO_32 * (s / TWO_32) + AckOf(L, id, phase);
    assert s - Offset(L, phase) == PADDING * (id % TWO_21);
  }

  lemma OffsetsDiffer(L: nat, p: Phase, q: Phase)
    requires L % PADDING != 0 && L % PADDING != PADDING - 1
    requires Offset(L, p) % PADDING == Offset(L, q) % PADDING
    ensures p == q
  {
  }

  lemma SameSequence(i: int, j: int, o: int)
    requires 0 <= i < TWO_32 && 0 <= j < TWO_32
    requires PortOf(i) == PortOf(j) && (SeqOf(i) + o) % TWO_32 == (SeqOf(j) + o) % TWO_32
    ensures i == j
  {
    CodecFits(i);
    CodecFits(j);
    CodecInvertible(i);
    CodecInvertible(j);
    var qi, qj := (SeqOf(i) + o) / TWO_32, (SeqOf(j) + o) / TWO_32;
    assert SeqOf(i) - SeqOf(j) == TWO_32 * (qi - qj);
  }

  // Port and acknowledgement number name one probe and one phase, for all 2^32 ids, exactly when
  // neither L nor L + 1 is a multiple of the padding.
  lemma UnambiguousIff(L: nat)
    requires L < 0x10000
    ensures Unambiguous(L) <==> L % PADDING != 0 && L % PADDING != PADDING - 1
  {
    if L % PADDING == 0 {
      Clash(L, L / PADDING, AnswerPhase);
    } else if L % PADDING == PADDING - 1 {
      Clash(L, L / PADDING + 1, FinPhase);
    } else {
      forall i, j, p, q | 0 <= i < TWO_32 && 0 <= j < TWO_32
        && PortOf(i) == PortOf(j) && AckOf(L, i, p) == AckOf(L, j, q)
        ensures i == j && p == q
      {
        AckModPadding(L, i, p);
        AckModPadding(L, j, q);
        OffsetsDiffer(L, p, q);
        SameSequence(i, j, Offset(L, p));
      }
    }
  }

  lemma Clash(L: nat, i: int, phase: Phase)
    requires L < 0x10000 && 0 <= i <= 32 && phase != SynAckPhase
    requires Offset(L, phase) == PADDING * i + 1
    ensures !Unambiguous(L)
  {
    assert SeqOf(i) == i * PADDING && PortOf(i) == FIRST_PORT;
    assert SeqOf(0) == 0 && PortOf(0) == FIRST_PORT;
    assert AckOf(L, i, SynAckPhase) == AckOf(L, 0, phase);
  }
}
