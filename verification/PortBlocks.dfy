// The block of ports each session gets, computed from nothing but its id.
module PortBlocks {
  import opened Decimals
  import opened Wrappers

  type u16 = x: int | 0 <= x < 0x1_0000

  const PORT_BLOCK_STRIDE: u16 := 16
  const MAX_PORT_COUNT: u16 := PORT_BLOCK_STRIDE

  datatype EnvironmentSpec = EnvironmentSpec(portBase: u16, portCount: u16)

  datatype EnvironmentError =
    | PortCountTooLarge(requested: u16, maximum: u16)
    | PortBaseTooLow(base: u16)
    | PortRangeExhausted(sessionId: string)

  // ---------- 64-bit arithmetic that stops at the top ----------

  function SaturatingAdd(a: u64, b: u64): u64 {
    if a + b < U64_LIMIT then a + b else U64_LIMIT - 1
  }

  function SaturatingMul(a: u64, b: u64): u64 {
    if 0 <= a * b < U64_LIMIT then a * b else U64_LIMIT - 1
  }

  function SaturatingSub(a: u64, b: u64): u64 {
    if a >= b then a - b else 0
  }

  // ---------- Allocation ----------

  // The id the registry gives to the session with this sequence number.
  function SessionId(sequence: u64): string {
    "s" + Padded(sequence, 4)
  }

  // How many blocks come before this session's.
  function Slot(id: string): u64 {
    var parsed := if id != "" && id[0] == 's' then ParseU64(id[1..]) else None;
    SaturatingSub(if parsed.Some? then parsed.value else 1, 1)
  }

  function Validate(spec: EnvironmentSpec): Option<EnvironmentError> {
    if spec.portCount > MAX_PORT_COUNT then Some(PortCountTooLarge(spec.portCount, MAX_PORT_COUNT))
    else if spec.portCount > 0 && spec.portBase < 1024 then Some(PortBaseTooLow(spec.portBase))
    else None
  }

  function PortsForSession(spec: EnvironmentSpec, id: string): Result<seq<u16>, EnvironmentError> {
    var invalid := Validate(spec);
    if invalid.Some? then Err(invalid.value)
    else if spec.portCount == 0 then Ok([])
    else
      var first := SaturatingAdd(spec.portBase, SaturatingMul(Slot(id), PORT_BLOCK_STRIDE));
      var last := SaturatingAdd(first, spec.portCount - 1);
      if last > 0xFFFF then Err(PortRangeExhausted(id))
      else Ok(seq(spec.portCount, offset requires offset >= 0 => (first + offset) % 0x1_0000))
  }

  // ---------- What a block is ----------

  // The same block in unbounded arithmetic.
  function FirstPort(spec: EnvironmentSpec, id: string): nat {
    spec.portBase + 16 * Slot(id)
  }

  // A valid request is refused exactly when its last port, in unbounded arithmetic,
  // is no port; otherwise it gets that block, in order and untruncated.
  lemma BlockIsExact(spec: EnvironmentSpec, id: string)
    requires Validate(spec).None? && spec.portCount > 0
    ensures
      match PortsForSession(spec, id)
      case Ok(ports) =>
        && FirstPort(spec, id) + spec.portCount - 1 <= 65_535
        && |ports| == spec.portCount
        && forall k :: 0 <= k < |ports| ==> ports[k] == FirstPort(spec, id) + k
      case Err(error) =>
        && FirstPort(spec, id) + spec.portCount - 1 > 65_535
        && error == PortRangeExhausted(id)
  {
    assert 0 <= Slot(id) * 16;
  }

  // What is refused: more than 16 ports, a base below 1024 if any port is asked for, and
  // a block that runs past the last port. Asking for none is always granted.
  lemma RefusedWhen(spec: EnvironmentSpec, id: string)
    ensures
      var answer := PortsForSession(spec, id);
      var tooMany, tooLow := spec.portCount > 16, 0 < spec.portCount && spec.portBase < 1024;
      && (answer == Err(PortCountTooLarge(spec.portCount, 16)) <==> tooMany)
      && (answer == Err(PortBaseTooLow(spec.portBase)) <==> !tooMany && tooLow)
      && (answer == Err(PortRangeExhausted(id)) <==>
            !tooMany && !tooLow && 0 < spec.portCount && FirstPort(spec, id) + spec.portCount - 1 > 65_535)
      && (answer.Ok? <==>
            !tooMany && !tooLow && (spec.portCount == 0 || FirstPort(spec, id) + spec.portCount - 1 <= 65_535))
  {
    if Validate(spec).None? && spec.portCount > 0 {
      BlockIsExact(spec, id);
    }
  }

  predicate Disjoint(a: seq<u16>, b: seq<u16>) {
    forall port :: port in a ==> port !in b
  }

  // Under one spec two blocks share a port only when they are the same block, and
  // they are when their ids lead to the same slot.
  lemma BlocksMeetOnlyInOneSlot(spec: EnvironmentSpec, id: string, id': string)
    requires PortsForSession(spec, id).Ok? && PortsForSession(spec, id').Ok?
    ensures
      var block, block' := PortsForSession(spec, id).value, PortsForSession(spec, id').value;
      if spec.portCount == 0 then block == block' == []
      else if Slot(id) == Slot(id') then block == block'
      else Disjoint(block, block')
  {
    if spec.portCount > 0 {
      BlockIsExact(spec, id);
      BlockIsExact(spec, id');
    }
  }

  // ---------- Sessions made by the registry ----------

  lemma SlotOfSession(sequence: u64)
    ensures Slot(SessionId(sequence)) == if sequence == 0 then 0 else sequence - 1
  {
    ParsePadded(sequence, 4);
    assert SessionId(sequence)[1..] == Padded(sequence, 4);
  }

  // Sequence numbers start at 1, and no two sessions ever share a port.
  lemma SessionsNeverShareAPort(spec: EnvironmentSpec, m: u64, n: u64)
    requires m >= 1 && n >= 1 && m != n
    requires PortsForSession(spec, SessionId(m)).Ok? && PortsForSession(spec, SessionId(n)).Ok?
    ensures Disjoint(PortsForSession(spec, SessionId(m)).value, PortsForSession(spec, SessionId(n)).value)
  {
    SlotOfSession(m);
    SlotOfSession(n);
    BlocksMeetOnlyInOneSlot(spec, SessionId(m), SessionId(n));
  }

  // Which sessions can be given a block at all: those whose block fits in unbounded
  // arithmetic, so the saturation never turns exhaustion into success.
  lemma SessionFits(spec: EnvironmentSpec, sequence: u64)
    requires sequence >= 1 && Validate(spec).None? && spec.portCount > 0
    ensures PortsForSession(spec, SessionId(sequence)).Ok?
       <==> spec.portBase + 16 * (sequence - 1) + spec.portCount - 1 <= 65_535
    ensures PortsForSession(spec, SessionId(sequence)).Ok? ==>
              var ports := PortsForSession(spec, SessionId(sequence)).value;
              |ports| == spec.portCount
              && forall k :: 0 <= k < |ports| ==> ports[k] == spec.portBase + 16 * (sequence - 1) + k >= 1024
  {
    SlotOfSession(sequence);
    BlockIsExact(spec, SessionId(sequence));
  }

  // Ids outside that scheme do share: sequence 0, an id with no sequence number and a
  // number past 64 bits all get the block of s0001.
  lemma ForeignIdsShareTheFirstBlock(spec: EnvironmentSpec, id: string)
    requires id == "" || id[0] != 's' || ParseU64(id[1..]) in {None, Some(0)}
    ensures
      var ports, first := PortsForSession(spec, id), PortsForSession(spec, SessionId(1));
      ports.Ok? == first.Ok? && (ports.Ok? ==> ports.value == first.value)
  {
    SlotOfSession(1);
  }
}
