/**
 The conntrack label: how policy flows pack their flow ids into the 128-bit
 register that is moved into ct_label on commit, and how CtLabelDecode reads
 the ids back out of the sixteen label bytes. Words are sequences of bits,
 least significant bit first.
 */
module CtLabel {

  type Byte = seq<bool>
  type Word = w: seq<bool> | |w| == 64 witness seq(64, _ => false)
  type Register = r: seq<bool> | |r| == 128 witness seq(128, _ => false)

  const Zero: Word := Mask(0, 0)
  const FreshRegister: Register := Zero + Zero

  /** The word whose bits lo, ..., hi - 1 are set. */
  function Mask(lo: nat, hi: nat): Word {
    seq(64, i => lo <= i < hi)
  }

  function And(x: Word, y: Word): Word { seq(64, i requires 0 <= i < 64 => x[i] && y[i]) }

  function Or(x: Word, y: Word): Word { seq(64, i requires 0 <= i < 64 => x[i] || y[i]) }

  function ShiftRight(x: Word, k: nat): Word { seq(64, i requires 0 <= i < 64 => i + k < 64 && x[i + k]) }

  function ShiftLeft(x: Word, k: nat): Word { seq(64, i requires 0 <= i < 64 => i >= k && x[i - k]) }

  /** LoadField(xxreg0, value, lo..hi). */
  function LoadField(reg: Register, value: Word, lo: nat, hi: nat): Register
    requires hi < lo + 64
  {
    seq(128, i requires 0 <= i < 128 => if lo <= i <= hi then value[i - lo] else reg[i])
  }

  /** Flow ids are 32 bits: a round number above a 28-bit sequence number. */
  predicate IsFlowID(id: Word) { forall i :: 32 <= i < 64 ==> !id[i] }

  function RoundNumber(id: Word): Word { ShiftRight(id, 28) }

  function SequenceNumber(id: Word): Word { And(id, Mask(0, 28)) }

  /** The register writes of a monitor rule. */
  function MonitorLoad(reg: Register, id: Word): Register {
    LoadField(LoadField(reg, RoundNumber(id), 0, 3), SequenceNumber(id), 32, 59)
  }

  function DenyLoad(reg: Register, deny: bool): Register {
    if deny then LoadField(reg, Mask(0, 1), 127, 127) else reg
  }

  /** The register writes of a work rule. */
  function WorkLoad(reg: Register, id: Word, deny: bool): Register {
    LoadField(LoadField(DenyLoad(reg, deny), RoundNumber(id), 0, 3), SequenceNumber(id), 60, 87)
  }

  predicate AreBytes(bytes: seq<Byte>) { forall k :: 0 <= k < |bytes| ==> |bytes[k]| == 8 }

  /** The label as netlink reports it, least significant byte first. */
  function LabelBytes(reg: Register): (bytes: seq<Byte>)
    ensures |bytes| == 16 && AreBytes(bytes)
  {
    seq(16, k requires 0 <= k < 16 => reg[8 * k..8 * k + 8])
  }

  /** binary.LittleEndian.Uint64. */
  function LittleEndianUint64(b: seq<Byte>): Word
    requires |b| == 8 && AreBytes(b)
  {
    seq(64, i requires 0 <= i < 64 => b[i / 8][i % 8])
  }

  datatype FlowIDs = FlowIDs(id1: Word, id2: Word, id3: Word)

  function CtLabelDecode(bytes: seq<Byte>): FlowIDs
    requires |bytes| >= 16 && AreBytes(bytes)
  {
    DecodeParts(LittleEndianUint64(bytes[0..8]), LittleEndianUint64(bytes[8..16]))
  }

  function DecodeParts(partA: Word, partB: Word): FlowIDs {
    Assemble(
      ShiftLeft(And(partA, Mask(0, 4)), 28),
      ShiftRight(And(partA, Mask(4, 32)), 4),
      ShiftRight(And(partA, Mask(32, 60)), 32),
      Or(ShiftRight(And(partA, Mask(60, 64)), 60), ShiftLeft(And(partB, Mask(0, 24)), 4)))
  }

  function Assemble(roundNum: Word, flowSeq1: Word, flowSeq2: Word, flowSeq3: Word): FlowIDs {
    FlowIDs(WithRound(roundNum, flowSeq1), WithRound(roundNum, flowSeq2), WithRound(roundNum, flowSeq3))
  }

  /** A zero sequence number means that no rule wrote the slot. */
  function WithRound(roundNum: Word, flowSeq: Word): Word {
    if flowSeq != Zero then Or(roundNum, flowSeq) else Zero
  }

  /** The n bits of the register from lo on, as a word. */
  function Field(reg: Register, lo: nat, n: nat): Word
    requires lo + n <= 128
  {
    seq(64, i requires 0 <= i < 64 => i < n && reg[lo + i])
  }

  lemma ByteParts(reg: Register)
    ensures LittleEndianUint64(LabelBytes(reg)[0..8]) == reg[0..64]
    ensures LittleEndianUint64(LabelBytes(reg)[8..16]) == reg[64..128]
  {
  }

  /** The decoder reads the round from bits 0..3 and the three slots of 28 bits above it. */
  lemma DecodeFields(reg: Register)
    ensures CtLabelDecode(LabelBytes(reg))
         == Assemble(ShiftLeft(Field(reg, 0, 4), 28), Field(reg, 4, 28), Field(reg, 32, 28), Field(reg, 60, 28))
  {
    ByteParts(reg);
    var partA, partB := reg[0..64], reg[64..128];
    assert And(partA, Mask(0, 4)) == Field(reg, 0, 4);
    assert ShiftRight(And(partA, Mask(4, 32)), 4) == Field(reg, 4, 28);
    assert ShiftRight(And(partA, Mask(32, 60)), 32) == Field(reg, 32, 28);
    assert Or(ShiftRight(And(partA, Mask(60, 64)), 60), ShiftLeft(And(partB, Mask(0, 24)), 4)) == Field(reg, 60, 28);
  }

  /** What a monitor rule leaves in each field. */
  lemma MonitorFields(reg: Register, m: Word)
    requires IsFlowID(m)
    ensures Field(MonitorLoad(reg, m), 0, 4) == RoundNumber(m)
    ensures Field(MonitorLoad(reg, m), 4, 28) == Field(reg, 4, 28)
    ensures Field(MonitorLoad(reg, m), 32, 28) == SequenceNumber(m)
    ensures Field(MonitorLoad(reg, m), 60, 28) == Field(reg, 60, 28)
  {
  }

  /** What a work rule leaves in each field. */
  lemma WorkFields(reg: Register, w: Word, deny: bool)
    requires IsFlowID(w)
    ensures Field(WorkLoad(reg, w, deny), 0, 4) == RoundNumber(w)
    ensures Field(WorkLoad(reg, w, deny), 4, 28) == Field(reg, 4, 28)
    ensures Field(WorkLoad(reg, w, deny), 32, 28) == Field(reg, 32, 28)
    ensures Field(WorkLoad(reg, w, deny), 60, 28) == SequenceNumber(w)
  {
  }

  /** An id is put together again under the round of w iff it is unused or shares that round. */
  lemma Reassembled(id: Word, w: Word)
    requires IsFlowID(id) && IsFlowID(w)
    ensures WithRound(ShiftLeft(RoundNumber(w), 28), SequenceNumber(id)) == id
       <==> id == Zero || (SequenceNumber(id) != Zero && RoundNumber(id) == RoundNumber(w))
  {
  }

  lemma FreshFields()
    ensures Field(FreshRegister, 4, 28) == Field(FreshRegister, 32, 28) == Field(FreshRegister, 60, 28) == Zero
  {
  }

  /**
   The label round trip, with or without the deny bit: both ids come back iff
   each has a sequence number (or is unused) and the two share a round.
   */
  lemma DecodeExactIff(m: Word, w: Word, deny: bool)
    requires IsFlowID(m) && IsFlowID(w)
    ensures CtLabelDecode(LabelBytes(WorkLoad(MonitorLoad(FreshRegister, m), w, deny))) == FlowIDs(Zero, m, w)
       <==> && (m == Zero || (SequenceNumber(m) != Zero && RoundNumber(m) == RoundNumber(w)))
            && (w == Zero || SequenceNumber(w) != Zero)
  {
    FreshFields();
    MonitorFields(FreshRegister, m);
    WorkFields(MonitorLoad(FreshRegister, m), w, deny);
    DecodeFields(WorkLoad(MonitorLoad(FreshRegister, m), w, deny));
    Reassembled(m, w);
    Reassembled(w, w);
  }

  /** A packet that met only a monitor rule, or only a work rule. */
  lemma DecodeSingle(id: Word, deny: bool)
    requires IsFlowID(id) && SequenceNumber(id) != Zero
    ensures CtLabelDecode(LabelBytes(MonitorLoad(FreshRegister, id))) == FlowIDs(Zero, id, Zero)
    ensures CtLabelDecode(LabelBytes(WorkLoad(FreshRegister, id, deny))) == FlowIDs(Zero, Zero, id)
  {
    FreshFields();
    Reassembled(id, id);
    MonitorFields(FreshRegister, id);
    DecodeFields(MonitorLoad(FreshRegister, id));
    WorkFields(FreshRegister, id, deny);
    DecodeFields(WorkLoad(FreshRegister, id, deny));
  }

  /** A later monitor rule replaces an earlier one. */
  lemma MonitorOverwrites(reg: Register, m: Word, m': Word)
    ensures MonitorLoad(MonitorLoad(reg, m), m') == MonitorLoad(reg, m')
  {
  }

  /** Only a deny touches bit 127, and bits 88..126 are never written. */
  lemma HighBits(reg: Register, id: Word, deny: bool)
    ensures MonitorLoad(reg, id)[88..] == reg[88..]
    ensures WorkLoad(reg, id, deny)[88..127] == reg[88..127]
    ensures WorkLoad(reg, id, deny)[127] == (deny || reg[127])
  {
  }
}
