/** Capabilities (ferrixd/src/cap.rs). */
module Caps {

  datatype Cap =
    | Sasl | MessageTags | ServerTime | EchoMessage | AccountTag | AwayNotify
    | ExtendedJoin | ChgHost | SetName | MultiPrefix | UserhostInNames | CapNotify
    | InviteNotify | Batch | ChatHistory | StandardReplies | Metadata | LabeledResponse
    | Multiline | AccountRegistration | AccountNotify | ExtendedMonitor | ReadMarker
    | EventPlayback | MessageRedaction | ChannelRename | NoImplicitNames | PreAway
    | ExtendedIsupport

  /** The discriminant, which is the bit's index. */
  function Index(c: Cap): (n: bv32)
    ensures n < 29
  {
    match c
    case Sasl => 0
    case MessageTags => 1
    case ServerTime => 2
    case EchoMessage => 3
    case AccountTag => 4
    case AwayNotify => 5
    case ExtendedJoin => 6
    case ChgHost => 7
    case SetName => 8
    case MultiPrefix => 9
    case UserhostInNames => 10
    case CapNotify => 11
    case InviteNotify => 12
    case Batch => 13
    case ChatHistory => 14
    case StandardReplies => 15
    case Metadata => 16
    case LabeledResponse => 17
    case Multiline => 18
    case AccountRegistration => 19
    case AccountNotify => 20
    case ExtendedMonitor => 21
    case ReadMarker => 22
    case EventPlayback => 23
    case MessageRedaction => 24
    case ChannelRename => 25
    case NoImplicitNames => 26
    case PreAway => 27
    case ExtendedIsupport => 28
  }

  /** A set of capabilities, one bit each. */
  datatype CapSet = CapSet(bits: bv32)

  const NONE := CapSet(0)

  function Bit(c: Cap): bv32 {
    (1 as bv32) << Index(c)
  }

  predicate Tests(bits: bv32, bit: bv32) {
    bits & bit != 0
  }

  function And(x: bv32, y: bv32): bv32 {
    x & y
  }

  predicate Has(caps: CapSet, c: Cap) {
    Tests(caps.bits, Bit(c))
  }

  /** Keep only the bits in `mask`. */
  function Masked(caps: CapSet, mask: CapSet): CapSet {
    CapSet(And(caps.bits, mask.bits))
  }

  function Insert(caps: CapSet, c: Cap): CapSet {
    CapSet(Union(caps.bits, Bit(c)))
  }

  predicate Covers(mask: CapSet, c: Cap) {
    And(mask.bits, Bit(c)) == Bit(c)
  }

  /** Every capability the mask covers is decided by the masked bits. */
  lemma MaskDecides(a: CapSet, b: CapSet, mask: CapSet, c: Cap)
    requires Masked(a, mask) == Masked(b, mask) && Covers(mask, c)
    ensures Has(a, c) == Has(b, c)
  {
    hide And, Tests, Bit;
    MaskedBits(a.bits, b.bits, mask.bits, Bit(c));
  }

  lemma MaskedBits(a: bv32, b: bv32, mask: bv32, bit: bv32)
    requires And(a, mask) == And(b, mask) && And(mask, bit) == bit
    ensures Tests(a, bit) == Tests(b, bit)
  {
  }

  lemma InsertCovers(mask: CapSet, c: Cap, d: Cap)
    ensures Covers(Insert(mask, c), c)
    ensures Covers(mask, d) ==> Covers(Insert(mask, c), d)
  {
    OrBits(mask.bits, Bit(c), Bit(d));
  }

  lemma OrBits(x: bv32, y: bv32, bit: bv32)
    ensures (x | y) & y == y
    ensures x & bit == bit ==> (x | y) & bit == bit
  {
  }

  // ------------------------------------------------------------- what a set contains

  lemma IndexInjective(c: Cap, d: Cap)
    requires Index(c) == Index(d)
    ensures c == d
  {
  }

  lemma ShiftedBits(i: bv32, j: bv32)
    requires i < 32 && j < 32
    ensures ((1 as bv32) << i) & ((1 as bv32) << j) == if i == j then (1 as bv32) << i else 0
    ensures (1 as bv32) << i != 0
  {
  }

  /** Different capabilities have different bits. */
  lemma BitsAreApart(c: Cap, d: Cap)
    ensures Tests(Bit(c), Bit(d)) <==> c == d
  {
    hide Index;
    ShiftedBits(Index(c), Index(d));
    if Index(c) == Index(d) {
      IndexInjective(c, d);
    }
  }

  lemma AndOverOr(x: bv32, y: bv32, bit: bv32)
    ensures (x | y) & bit == (x & bit) | (y & bit)
  {
  }

  lemma OrIsZero(x: bv32, y: bv32)
    ensures x | y == 0 <==> x == 0 && y == 0
  {
  }

  lemma AndZero(bit: bv32)
    ensures 0 & bit == 0
  {
  }

  function Union(x: bv32, y: bv32): bv32 {
    x | y
  }

  lemma TestsUnion(x: bv32, y: bv32, bit: bv32)
    ensures Tests(Union(x, y), bit) <==> Tests(x, bit) || Tests(y, bit)
    ensures !Tests(0, bit)
  {
    AndOverOr(x, y, bit);
    OrIsZero(x & bit, y & bit);
    AndZero(bit);
  }

  /** A set holds what was inserted and nothing else. */
  lemma HasInserted(caps: CapSet, c: Cap, d: Cap)
    ensures Has(Insert(caps, c), d) <==> c == d || Has(caps, d)
    ensures !Has(NONE, d)
  {
    hide Bit, Tests, Union;
    TestsUnion(caps.bits, Bit(c), Bit(d));
    BitsAreApart(c, d);
  }
}
