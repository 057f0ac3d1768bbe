/** The command buffer between a display client and its server: the client of src/libpatchwork/display.c lays out
    commands byte by byte, and the server of src/boxes/core/dwm/client.c checks and walks what it receives. */
module Commands {
  import opened Common

  const MAX_DATA := 0x1000
  const DATA := 16          // offset of the commands in the buffer
  const HEADER := 16        // size of a command header
  const BUFFER := DATA + MAX_DATA
  const RECEIVE := BUFFER + 128
  const MAGIC := 0xDEAD_C0DE
  const TYPE_AMOUNT := 11
  const WORD := 0x1_0000_0000_0000_0000

  type Byte = n: nat | n < 256
  type Word32 = n: nat | n < 0x1_0000_0000

  datatype Command = Command(kind: Word32, size: nat)

  // ---- little-endian fields -----------------------------------------------------------------------------

  function Pow256(n: nat): (r: nat)
    ensures r > 0
  {
    if n == 0 then 1 else 256 * Pow256(n - 1)
  }

  function Encode(v: nat, n: nat): (r: seq<Byte>)
    ensures |r| == n
  {
    if n == 0 then [] else [v % 256] + Encode(v / 256, n - 1)
  }

  function Decode(s: seq<Byte>): nat { if s == [] then 0 else s[0] + 256 * Decode(s[1..]) }

  lemma {:induction false} FieldRoundTrip(v: nat, n: nat)
    requires v < Pow256(n)
    ensures Decode(Encode(v, n)) == v
  {
    if n == 0 {
    } else {
      FieldRoundTrip(v / 256, n - 1);
      assert Encode(v, n)[1..] == Encode(v / 256, n - 1);
    }
  }

  /** A field is at least what one of its bytes contributes, and less than its width allows. */
  lemma {:induction false} ByteCounts(s: seq<Byte>, k: nat)
    requires k < |s|
    ensures s[k] * Pow256(k) <= Decode(s)
  {
    if k == 0 {
    } else {
      ByteCounts(s[1..], k - 1);
      assert s[k] * Pow256(k) == 256 * (s[k] * Pow256(k - 1));
    }
  }

  lemma {:induction false} FieldBound(s: seq<Byte>)
    ensures Decode(s) < Pow256(|s|)
  {
    if s == [] {
    } else {
      FieldBound(s[1..]);
    }
  }

  lemma Powers()
    ensures Pow256(1) == 256 && Pow256(2) == 0x1_0000 && Pow256(4) == 0x1_0000_0000 && Pow256(8) == WORD
  {
    assert Pow256(3) == 0x100_0000;
    assert Pow256(5) == 0x100_0000_0000;
    assert Pow256(6) == 0x1_0000_0000_0000;
    assert Pow256(7) == 0x100_0000_0000_0000;
  }

  /** cmd_header_t: magic, type and size. */
  function HeaderBytes(c: Command): (r: seq<Byte>)
    ensures |r| == HEADER
  {
    Encode(MAGIC, 4) + Encode(c.kind, 4) + Encode(c.size, 8)
  }

  function MagicAt(mem: seq<Byte>, p: nat): nat
    requires p + HEADER <= |mem|
  {
    Decode(mem[p..p + 4])
  }

  function CommandAt(mem: seq<Byte>, p: nat): (c: Command)
    requires p + HEADER <= |mem|
    ensures c.size < WORD
  {
    Powers();
    FieldBound(mem[p + 4..p + 8]);
    FieldBound(mem[p + 8..p + HEADER]);
    Command(Decode(mem[p + 4..p + 8]), Decode(mem[p + 8..p + HEADER]))
  }

  lemma Parts(a: seq<Byte>, b: seq<Byte>, c: seq<Byte>)
    requires |a| == 4 && |b| == 4
    ensures (a + b + c)[..4] == a && (a + b + c)[4..8] == b && (a + b + c)[8..] == c
  {}

  lemma Slice(mem: seq<Byte>, p: nat, i: nat, j: nat)
    requires p + HEADER <= |mem| && i <= j <= HEADER
    ensures mem[p + i..p + j] == mem[p..p + HEADER][i..j]
  {
    var a, b := mem[p + i..p + j], mem[p..p + HEADER][i..j];
    assert forall k :: 0 <= k < j - i ==> a[k] == mem[p + i + k] == b[k];
  }

  lemma HeaderRoundTrip(mem: seq<Byte>, p: nat, c: Command)
    requires p + HEADER <= |mem| && mem[p..p + HEADER] == HeaderBytes(c) && c.size < WORD
    ensures MagicAt(mem, p) == 0xDEAD_C0DE && CommandAt(mem, p) == c
  {
    Powers();
    Parts(Encode(MAGIC, 4), Encode(c.kind, 4), Encode(c.size, 8));
    var h := mem[p..p + HEADER];
    Slice(mem, p, 0, 4);
    Slice(mem, p, 4, 8);
    Slice(mem, p, 8, HEADER);
    assert h[0..4] == h[..4] && h[8..HEADER] == h[8..];
    FieldRoundTrip(MAGIC, 4);
    FieldRoundTrip(c.kind, 4);
    FieldRoundTrip(c.size, 8);
  }

  // ---- the server ---------------------------------------------------------------------------------------

  /** The checks of client_process_cmds from offset p on, with so many commands left to come; offsets wrap like
      pointers. */
  function Scan(mem: seq<Byte>, p: nat, end: nat, left: nat): Option<seq<Command>>
    requires end + HEADER <= |mem|
    decreases left
  {
    if p >= end then (if left == 0 then Some([]) else None)
    else if left == 0 then None
    else
      var c := CommandAt(mem, p);
      var next := (p + c.size) % WORD;
      if next > end || MagicAt(mem, p) != MAGIC || c.kind >= TYPE_AMOUNT then None
      else
        match Scan(mem, next, end, left - 1)
        case None => None
        case Some(rest) => Some([c] + rest)
  }

  /** What the server does with a buffer: refuse it, or carry out these commands. */
  function Served(mem: seq<Byte>, amount: nat, size: nat): Option<seq<Command>>
    requires |mem| >= RECEIVE
  {
    if size > MAX_DATA then None else Scan(mem, DATA, size, amount)
  }

  /** The two loops of client_process_cmds: the first checks, the second is a plain CMD_BUFFER_FOR_EACH. */
  method Process(mem: seq<Byte>, amount: nat, size: nat) returns (r: Option<seq<Command>>)
    requires |mem| >= RECEIVE
    ensures r == Served(mem, amount, size)
  {
    hide CommandAt, MagicAt;
    if size > MAX_DATA { return None; }
    var p: nat, count: nat := DATA, 0;
    ghost var seen: seq<Command> := [];
    PrependNone(Scan(mem, DATA, size, amount));
    while p < size
      invariant count <= amount
      invariant Scan(mem, DATA, size, amount) == Prepend(seen, Scan(mem, p, size, amount - count))
      decreases amount - count, if p < size then 1 else 0
    {
      count := count + 1;
      if count > amount { return None; }
      var c := CommandAt(mem, p);
      if (p + c.size) % WORD > size || MagicAt(mem, p) != MAGIC || c.kind >= TYPE_AMOUNT { return None; }
      PrependMore(seen, c, Scan(mem, (p + c.size) % WORD, size, amount - count));
      seen := seen + [c];
      p := (p + c.size) % WORD;
    }
    if count != amount { return None; }
    var cmds := ForEach(mem, amount, size);
    return Some(cmds);
  }

  ghost function Prepend(xs: seq<Command>, r: Option<seq<Command>>): Option<seq<Command>> {
    match r case None => None case Some(ys) => Some(xs + ys)
  }

  lemma PrependNone(r: Option<seq<Command>>)
    ensures Prepend([], r) == r
  {
    if r.Some? { assert [] + r.value == r.value; }
  }

  lemma PrependMore(xs: seq<Command>, c: Command, r: Option<seq<Command>>)
    ensures Prepend(xs + [c], r) == Prepend(xs, Prepend([c], r))
  {
    if r.Some? { assert xs + [c] + r.value == xs + ([c] + r.value); }
  }

  /** CMD_BUFFER_FOR_EACH on a buffer that passed the checks. */
  method ForEach(mem: seq<Byte>, ghost amount: nat, size: nat) returns (seen: seq<Command>)
    requires |mem| >= RECEIVE && size <= MAX_DATA && Scan(mem, DATA, size, amount).Some?
    ensures Scan(mem, DATA, size, amount) == Some(seen)
  {
    hide CommandAt, MagicAt;
    seen := [];
    var p: nat := DATA;
    ghost var left := amount;
    PrependNone(Scan(mem, DATA, size, amount));
    while p < size
      invariant Scan(mem, p, size, left).Some?
      invariant Scan(mem, DATA, size, amount) == Prepend(seen, Scan(mem, p, size, left))
      decreases left
    {
      var c := CommandAt(mem, p);
      PrependMore(seen, c, Scan(mem, (p + c.size) % WORD, size, left - 1));
      seen := seen + [c];
      p := (p + c.size) % WORD;
      left := left - 1;
    }
    assert Scan(mem, p, size, left) == Some([]) && seen + [] == seen;
  }

  // ---- commands laid out one after the other --------------------------------------------------------------

  function Total(cmds: seq<Command>): nat { if cmds == [] then 0 else cmds[0].size + Total(cmds[1..]) }

  lemma {:induction false} TotalMore(cmds: seq<Command>, c: Command)
    ensures Total(cmds + [c]) == Total(cmds) + c.size
  {
    if cmds == [] {
      assert (cmds + [c])[1..] == [];
    } else {
      TotalMore(cmds[1..], c);
      assert (cmds + [c])[1..] == cmds[1..] + [c];
    }
  }

  predicate AllFull(cmds: seq<Command>) { forall i :: 0 <= i < |cmds| ==> cmds[i].size >= HEADER }

  predicate AllKnown(cmds: seq<Command>) { forall i :: 0 <= i < |cmds| ==> cmds[i].kind < TYPE_AMOUNT }

  /** From p on, each command's header stands where the one before it ends. */
  ghost predicate Laid(mem: seq<Byte>, p: nat, cmds: seq<Command>)
    decreases |cmds|
  {
    cmds == []
    || (p + HEADER <= |mem| && mem[p..p + HEADER] == HeaderBytes(cmds[0]) && Laid(mem, p + cmds[0].size, cmds[1..]))
  }

  /** A further command behind full ones leaves their headers alone. */
  lemma {:induction false} LaidMore(mem: seq<Byte>, mem': seq<Byte>, p: nat, cmds: seq<Command>, c: Command)
    requires Laid(mem, p, cmds) && AllFull(cmds) && |mem| == p + Total(cmds)
    requires |mem| + HEADER <= |mem'| && mem <= mem' && mem'[|mem|..|mem| + HEADER] == HeaderBytes(c)
    ensures Laid(mem', p, cmds + [c])
    decreases |cmds|
  {
    hide HeaderBytes;
    if cmds == [] {
      assert (cmds + [c])[1..] == [];
    } else {
      assert p + HEADER <= |mem|;
      assert mem'[p..p + HEADER] == mem[p..p + HEADER];
      LaidMore(mem, mem', p + cmds[0].size, cmds[1..], c);
      assert (cmds + [c])[1..] == cmds[1..] + [c];
    }
  }

  lemma {:induction false} LaidLonger(mem: seq<Byte>, more: seq<Byte>, p: nat, cmds: seq<Command>)
    requires Laid(mem, p, cmds)
    ensures Laid(mem + more, p, cmds)
    decreases |cmds|
  {
    hide HeaderBytes;
    if cmds == [] {
    } else {
      assert (mem + more)[p..p + HEADER] == mem[p..p + HEADER];
      LaidLonger(mem, more, p + cmds[0].size, cmds[1..]);
    }
  }

  /** Full commands of known types are carried out as they were laid out. */
  lemma {:induction false} LaidServed(mem: seq<Byte>, p: nat, end: nat, cmds: seq<Command>)
    requires |mem| >= RECEIVE && Laid(mem, p, cmds) && AllFull(cmds) && AllKnown(cmds) && end == p + Total(cmds) <= MAX_DATA
    ensures Scan(mem, p, end, |cmds|) == Some(cmds)
    decreases |cmds|
  {
    hide HeaderBytes, CommandAt, MagicAt, Scan;
    if cmds == [] {
      ScanEnd(mem, end);
    } else {
      var c, rest := cmds[0], cmds[1..];
      assert c.size >= HEADER && c.kind < TYPE_AMOUNT && AllFull(rest) && AllKnown(rest);
      HeaderRoundTrip(mem, p, c);
      LaidServed(mem, p + c.size, end, rest);
      ScanOne(mem, p, end, c, rest);
      assert cmds == [c] + rest;
    }
  }

  lemma ScanEnd(mem: seq<Byte>, end: nat)
    requires end + HEADER <= |mem|
    ensures Scan(mem, end, end, 0) == Some([])
  {}

  lemma ScanOne(mem: seq<Byte>, p: nat, end: nat, c: Command, rest: seq<Command>)
    requires end + HEADER <= |mem| && p < p + c.size <= end <= MAX_DATA && c.kind < TYPE_AMOUNT
    requires MagicAt(mem, p) == MAGIC && CommandAt(mem, p) == c && Scan(mem, p + c.size, end, |rest|) == Some(rest)
    ensures Scan(mem, p, end, |rest| + 1) == Some([c] + rest)
  {
    hide MagicAt, CommandAt;
    assert (p + c.size) % WORD == p + c.size;
  }

  // ---- short commands -------------------------------------------------------------------------------------

  lemma MagicBytes(mem: seq<Byte>, p: nat)
    requires p + HEADER <= |mem| && MagicAt(mem, p) == MAGIC
    ensures mem[p] == 0xDE && mem[p + 1] == 0xC0 && mem[p + 2] == 0xAD && mem[p + 3] == 0xDE
  {
    var s := mem[p..p + 4];
    assert s[1..][1..] == s[2..] && s[2..][1..] == s[3..] && s[3..][1..] == [];
    var a: nat, b: nat, c: nat, d: nat := s[0], s[1], s[2], s[3];
    assert Decode(s[3..]) == d && Decode(s[2..]) == c + 256 * d && Decode(s[1..]) == b + 256 * (c + 256 * d);
    assert a + 256 * (b + 256 * (c + 256 * d)) == MAGIC;
  }

  /** Two headers that overlap cannot both pass: the magic of the second falls on a field of the first. */
  lemma Overlap(mem: seq<Byte>, p: nat, size: nat)
    requires 0 < size < HEADER && p + size + HEADER <= |mem|
    requires MagicAt(mem, p) == MAGIC && MagicAt(mem, p + size) == MAGIC
    ensures CommandAt(mem, p) != Command(CommandAt(mem, p).kind, size) || CommandAt(mem, p).kind >= TYPE_AMOUNT
  {
    MagicBytes(mem, p);
    MagicBytes(mem, p + size);
    var kind, length := mem[p + 4..p + 8], mem[p + 8..p + HEADER];
    if size == 3 {
      ByteCounts(kind, 0);
    } else if 4 <= size < 8 {
      ByteCounts(kind, size - 4);
    } else if size >= 8 {
      ByteCounts(length, size - 8);
    }
  }

  /** A command of no size is met again and again, and the count runs out. */
  lemma {:induction false} Endless(mem: seq<Byte>, p: nat, end: nat, left: nat)
    requires end + HEADER <= |mem| && p < end <= MAX_DATA && CommandAt(mem, p).size == 0
    ensures Scan(mem, p, end, left).None?
    decreases left
  {
    hide CommandAt, MagicAt;
    if left == 0 {
    } else {
      Endless(mem, p, end, left - 1);
    }
  }

  /** Only high bytes follow. */
  ghost predicate Ones(mem: seq<Byte>, end: nat) { forall i :: end <= i < |mem| ==> mem[i] == 255 }

  lemma LastFull(mem: seq<Byte>, p: nat, end: nat)
    requires p + HEADER <= |mem| && Ones(mem, end) && p + CommandAt(mem, p).size == end
    ensures CommandAt(mem, p).size >= HEADER
  {
    var length := mem[p + 8..p + HEADER];
    if end < p + HEADER {
      assert length[7] == mem[p + 15] == 255;
      ByteCounts(length, 7);
      Powers();
    }
  }

  /** Whatever bytes the server gets: every command it carries out, but the last, is as long as its header. So is
      the last unless the bytes behind the buffer's used size make up for it. */
  lemma {:induction false} ServedFull(mem: seq<Byte>, p: nat, end: nat, cmds: seq<Command>)
    requires |mem| >= RECEIVE && end <= MAX_DATA && Scan(mem, p, end, |cmds|) == Some(cmds)
    requires forall i :: 0 <= i < |cmds| ==> cmds[i].size <= MAX_DATA
    ensures AllKnown(cmds) && (cmds != [] ==> AllFull(cmds[..|cmds| - 1]))
    ensures Ones(mem, end) ==> AllFull(cmds)
    decreases |cmds|
  {
    hide CommandAt, MagicAt;
    if cmds == [] {
    } else {
      var c, rest := CommandAt(mem, p), cmds[1..];
      assert cmds == [c] + rest && cmds[0] == c;
      assert (p + c.size) % WORD == p + c.size;
      ServedFull(mem, p + c.size, end, rest);
      if rest == [] {
        if Ones(mem, end) { LastFull(mem, p, end); }
      } else {
        if c.size == 0 { Endless(mem, p, end, |rest|); }
        if 0 < c.size < HEADER { Overlap(mem, p, c.size); }
        assert forall i :: 0 < i < |cmds| ==> cmds[i] == rest[i - 1];
        assert cmds[..|cmds| - 1] == [c] + rest[..|rest| - 1];
      }
    }
  }

  // ---- packets ------------------------------------------------------------------------------------------------

  /** What is written to the server: the count and the used size, which lead the bytes, and the bytes themselves. */
  datatype Packet = Packet(amount: nat, size: nat, bytes: seq<Byte>)

  /** The packet holds these commands, intact if all of them are full. */
  ghost predicate Holds(b: Packet, cmds: seq<Command>) {
    && b.amount == |cmds| && b.size == |b.bytes| == DATA + Total(cmds) <= BUFFER
    && (AllFull(cmds) ==> Laid(b.bytes, DATA, cmds))
    && (b.size <= MAX_DATA || |cmds| == 1)
  }

  /** A command the server will carry out. */
  predicate Fine(c: Command) { 16 <= c.size <= 4080 && c.kind < 11 }

  predicate AllFine(cmds: seq<Command>) { forall i :: 0 <= i < |cmds| ==> Fine(cmds[i]) }

  lemma {:induction false} SizeInTotal(cmds: seq<Command>, i: nat)
    requires i < |cmds|
    ensures cmds[i].size <= Total(cmds)
  {
    if i == 0 {
    } else {
      SizeInTotal(cmds[1..], i - 1);
    }
  }

  lemma FineServed(b: Packet, cmds: seq<Command>, beyond: seq<Byte>)
    requires Holds(b, cmds) && AllFine(cmds) && |b.bytes + beyond| >= RECEIVE
    ensures Served(b.bytes + beyond, b.amount, b.size) == Some(cmds)
  {
    hide Laid, Scan;
    if |cmds| == 1 { assert Total(cmds[1..]) == 0; }
    LaidLonger(b.bytes, beyond, DATA, cmds);
    LaidServed(b.bytes + beyond, DATA, b.size, cmds);
  }

  lemma ServedFine(b: Packet, cmds: seq<Command>, beyond: seq<Byte>)
    requires Holds(b, cmds) && |b.bytes + beyond| >= RECEIVE && Served(b.bytes + beyond, b.amount, b.size) == Some(cmds)
    requires forall i :: 0 <= i < |beyond| ==> beyond[i] == 255
    ensures AllFine(cmds)
  {
    hide Laid, Scan;
    forall i | 0 <= i < |cmds| ensures cmds[i].size <= MAX_DATA - DATA { SizeInTotal(cmds, i); }
    ServedFull(b.bytes + beyond, DATA, b.size, cmds);
  }

  ghost function Flatten(groups: seq<seq<Command>>): seq<Command> {
    if groups == [] then [] else Flatten(groups[..|groups| - 1]) + groups[|groups| - 1]
  }

  lemma FlattenMore(groups: seq<seq<Command>>, g: seq<Command>)
    ensures Flatten(groups + [g]) == Flatten(groups) + g
  {
    assert (groups + [g])[..|groups|] == groups;
  }

  ghost predicate AllHold(sent: seq<Packet>, groups: seq<seq<Command>>) {
    |sent| == |groups| && forall i :: 0 <= i < |sent| ==> Holds(sent[i], groups[i])
  }

  /** Bytes that may lie behind each packet in the server's buffer. */
  ghost predicate Behind(sent: seq<Packet>, beyond: seq<seq<Byte>>) {
    |beyond| == |sent| && forall i :: 0 <= i < |sent| ==> |sent[i].bytes| + |beyond[i]| >= RECEIVE
  }

  /** The commands the server carries out, packet by packet, unless it refuses one. */
  ghost function Received(sent: seq<Packet>, beyond: seq<seq<Byte>>): Option<seq<Command>>
    requires Behind(sent, beyond)
    decreases |sent|
  {
    if sent == [] then Some([])
    else
      var n := |sent| - 1;
      var last := Served(sent[n].bytes + beyond[n], sent[n].amount, sent[n].size);
      match Received(sent[..n], beyond[..n])
      case None => None
      case Some(before) => if last.None? then None else Some(before + last.value)
  }

  lemma {:induction false} FineReceived(sent: seq<Packet>, groups: seq<seq<Command>>, beyond: seq<seq<Byte>>)
    requires AllHold(sent, groups) && Behind(sent, beyond) && AllFine(Flatten(groups))
    ensures Received(sent, beyond) == Some(Flatten(groups))
    decreases |sent|
  {
    hide Holds, Served;
    if sent == [] {
    } else {
      var n := |sent| - 1;
      var before, last := Flatten(groups[..n]), groups[n];
      assert Flatten(groups) == before + last;
      assert forall i :: 0 <= i < |before| ==> before[i] == Flatten(groups)[i];
      assert forall i :: 0 <= i < |last| ==> last[i] == Flatten(groups)[|before| + i];
      FineReceived(sent[..n], groups[..n], beyond[..n]);
      FineServed(sent[n], last, beyond[n]);
    }
  }

  lemma {:induction false} ScanCounts(mem: seq<Byte>, p: nat, end: nat, left: nat)
    requires end + HEADER <= |mem|
    ensures Scan(mem, p, end, left).Some? ==> |Scan(mem, p, end, left).value| == left
    decreases left
  {
    hide CommandAt, MagicAt;
    if p >= end || left == 0 {
    } else {
      ScanCounts(mem, (p + CommandAt(mem, p).size) % WORD, end, left - 1);
    }
  }

  /** As many commands as were sent are carried out; if they are the same ones, all are fine. */
  lemma {:induction false} ReceivedFine(sent: seq<Packet>, groups: seq<seq<Command>>, beyond: seq<seq<Byte>>)
    requires AllHold(sent, groups) && Behind(sent, beyond) && Received(sent, beyond).Some?
    requires forall i, j :: 0 <= i < |beyond| && 0 <= j < |beyond[i]| ==> beyond[i][j] == 255
    ensures |Received(sent, beyond).value| == |Flatten(groups)|
    ensures Received(sent, beyond).value == Flatten(groups) ==> AllFine(Flatten(groups))
    decreases |sent|
  {
    hide Holds, Scan;
    if sent == [] {
    } else {
      var n := |sent| - 1;
      var b, last := sent[n], Served(sent[n].bytes + beyond[n], sent[n].amount, sent[n].size);
      var before := Received(sent[..n], beyond[..n]);
      ScanCounts(b.bytes + beyond[n], DATA, b.size, b.amount);
      AmountIs(b, groups[n]);
      ReceivedFine(sent[..n], groups[..n], beyond[..n]);
      Split(before.value, last.value, Flatten(groups[..n]), groups[n]);
      if last.value == groups[n] { ServedFine(b, groups[n], beyond[n]); }
    }
  }

  lemma Split(a: seq<Command>, b: seq<Command>, c: seq<Command>, d: seq<Command>)
    requires |a| == |c|
    ensures a + b == c + d ==> a == c && b == d
  {
    if a + b == c + d {
      assert a == (a + b)[..|a|] && c == (c + d)[..|a|] && b == (a + b)[|a|..] && d == (c + d)[|a|..];
    }
  }

  lemma AmountIs(b: Packet, cmds: seq<Command>)
    requires Holds(b, cmds)
    ensures b.amount == |cmds| && b.size == |b.bytes| && DATA <= b.size
  {}

  /** Whatever lies behind the packets in the server's buffer, exactly these commands are carried out, if and only
      if all of them are as long as their header, fit the server's limit and have a known type. */
  lemma DeliveredExactly(sent: seq<Packet>, groups: seq<seq<Command>>)
    requires AllHold(sent, groups)
    ensures (forall beyond :: Behind(sent, beyond) ==> Received(sent, beyond) == Some(Flatten(groups)))
      <==> AllFine(Flatten(groups))
  {
    hide Received, Holds, AllFine;
    if AllFine(Flatten(groups)) {
      forall beyond | Behind(sent, beyond) ensures Received(sent, beyond) == Some(Flatten(groups)) {
        FineReceived(sent, groups, beyond);
      }
    } else {
      var ones: seq<seq<Byte>> := seq(|sent|, _ => seq(RECEIVE, _ => 255));
      assert Behind(sent, ones);
      if Received(sent, ones).Some? { ReceivedFine(sent, groups, ones); }
    }
  }

  // ---- the client -----------------------------------------------------------------------------------------------

  /** The client's buffer, and the packets the server has received. */
  class Connection {
    const buffer: array<Byte>
    var amount: nat
    var size: nat
    var isConnected: bool
    var sent: seq<Packet>
    ghost var pending: seq<Command>
    ghost var groups: seq<seq<Command>>

    ghost predicate Valid()
      reads this, buffer
    {
      && buffer.Length == BUFFER && DATA <= size <= BUFFER
      && Holds(Packet(amount, size, buffer[..size]), pending) && AllHold(sent, groups)
    }

    /** Every command received or waiting, in order. */
    ghost function Log(): seq<Command>
      reads this
    {
      Flatten(groups) + pending
    }

    constructor ()
      ensures Valid() && fresh(buffer) && Log() == [] && isConnected && sent == []
    {
      buffer := new Byte[BUFFER](_ => 0);
      amount, size, isConnected, sent := 0, DATA, true, [];
      pending, groups := [], [];
    }

    /** display_cmds_flush; whether the write goes through is up to the socket. */
    method Flush(writeOk: bool)
      requires Valid()
      modifies this
      ensures Valid() && amount == 0 && size == DATA && pending == []
      ensures isConnected <==> old(isConnected) && (writeOk || old(amount) == 0)
      ensures sent == old(sent) + if old(isConnected) && old(amount) != 0 && writeOk
                                  then [Packet(old(amount), old(size), old(buffer[..size]))] else []
      ensures isConnected ==> Log() == old(Log())
    {
      hide Holds, Flatten;
      AmountIs(Packet(amount, size, buffer[..size]), pending);
      FlattenMore(groups, pending);
      if isConnected && amount != 0 {
        if writeOk {
          sent := sent + [Packet(amount, size, buffer[..size])];
          groups := groups + [pending];
        } else {
          isConnected := false;
        }
      }
      size := DATA;
      amount := 0;
      pending := [];
      HoldsNothing(buffer[..size]);
      assert Log() == Flatten(groups);
    }

    method PutHeader(cmd: nat, c: Command)
      requires cmd + HEADER <= buffer.Length
      modifies buffer
      ensures buffer[cmd..cmd + HEADER] == HeaderBytes(c) && buffer[..cmd] == old(buffer[..cmd])
    {
      hide HeaderBytes;
      var header := HeaderBytes(c);
      forall k | 0 <= k < HEADER { buffer[cmd + k] := header[k]; }
      assert buffer[cmd..cmd + HEADER] == header;
    }

    /** display_cmd_alloc: the offset of the new command, whose header lies inside the buffer. */
    method Alloc(kind: Word32, cmdSize: nat, writeOk: bool) returns (r: Option<nat>)
      requires Valid()
      modifies this, buffer
      ensures Valid() && (r.None? <==> cmdSize > MAX_DATA) && old(sent) <= sent
      ensures r.Some? ==> DATA <= r.value && r.value + cmdSize == size <= BUFFER && r.value + HEADER <= BUFFER && amount > 0
      ensures r.Some? ==> buffer[r.value..r.value + HEADER] == HeaderBytes(Command(kind, cmdSize))
      ensures old(isConnected) && writeOk ==> isConnected
      ensures isConnected ==> old(isConnected) && Log() == old(Log()) + (if r.Some? then [Command(kind, cmdSize)] else [])
    {
      hide Holds, Flatten, HeaderBytes, AllHold;
      if cmdSize > MAX_DATA { return None; }
      if size + cmdSize >= MAX_DATA { Flush(writeOk); }
      var cmd := Place(Command(kind, cmdSize));
      return Some(cmd);
    }

    method Place(c: Command) returns (cmd: nat)
      requires Valid() && c.size <= MAX_DATA && (size + c.size < MAX_DATA || pending == [])
      modifies this`amount, this`size, this`pending, buffer
      ensures Valid() && cmd == old(size) && size == cmd + c.size && amount == old(amount) + 1 && cmd + HEADER <= BUFFER
      ensures buffer[cmd..cmd + HEADER] == HeaderBytes(c) && Log() == old(Log()) + [c]
    {
      hide Holds, Flatten, HeaderBytes, AllHold;
      ghost var b := Packet(amount, size, buffer[..size]);
      AmountIs(b, pending);
      if pending == [] { NothingHeld(b, pending); }
      cmd := size;
      amount := amount + 1;
      size := size + c.size;
      PutHeader(cmd, c);
      HoldsMore(b, pending, c, buffer[..size], buffer[..]);
      assert Flatten(groups) + (pending + [c]) == Log() + [c];
      pending := pending + [c];
    }
  }

  lemma NothingHeld(b: Packet, cmds: seq<Command>)
    requires Holds(b, cmds) && cmds == []
    ensures b.size == DATA
  {}

  lemma HoldsNothing(bytes: seq<Byte>)
    requires |bytes| == DATA
    ensures Holds(Packet(0, DATA, bytes), [])
  {}

  lemma HoldsMore(b: Packet, cmds: seq<Command>, c: Command, bytes: seq<Byte>, mem: seq<Byte>)
    requires Holds(b, cmds) && |mem| == BUFFER && |bytes| == b.size + c.size <= BUFFER && bytes <= mem && b.bytes <= mem
    requires b.size + HEADER <= BUFFER && mem[b.size..b.size + HEADER] == HeaderBytes(c)
    requires cmds == [] || b.size + c.size <= MAX_DATA
    ensures Holds(Packet(b.amount + 1, b.size + c.size, bytes), cmds + [c])
  {
    hide Laid, HeaderBytes;
    TotalMore(cmds, c);
    var all := cmds + [c];
    if AllFull(all) {
      assert forall i :: 0 <= i < |cmds| ==> cmds[i] == all[i];
      assert all[|cmds|] == c;
      assert bytes[b.size..b.size + HEADER] == mem[b.size..b.size + HEADER];
      assert b.bytes == mem[..b.size] == bytes[..b.size];
      LaidMore(b.bytes, bytes, DATA, cmds, c);
    }
  }

  /** The commands the client does not refuse. */
  ghost function Taken(cmds: seq<Command>): seq<Command> {
    if cmds == [] then []
    else
      var n := |cmds| - 1;
      Taken(cmds[..n]) + (if cmds[n].size <= MAX_DATA then [cmds[n]] else [])
  }

  lemma TakenMore(cmds: seq<Command>, c: Command)
    ensures Taken(cmds + [c]) == Taken(cmds) + (if c.size <= MAX_DATA then [c] else [])
  {
    assert (cmds + [c])[..|cmds|] == cmds;
  }

  lemma {:induction false} TakenAll(cmds: seq<Command>)
    ensures |Taken(cmds)| <= |cmds| && (Taken(cmds) == cmds <==> forall i :: 0 <= i < |cmds| ==> cmds[i].size <= MAX_DATA)
    ensures |Taken(cmds)| == |cmds| ==> Taken(cmds) == cmds
  {
    if cmds == [] {
    } else {
      var n := |cmds| - 1;
      TakenAll(cmds[..n]);
      assert cmds == cmds[..n] + [cmds[n]];
    }
  }

  /** A client allocates commands and flushes at the end. If it is still connected then, the server carries out
      exactly these commands, in order and whatever lies behind the packets in its buffer, if and only if each of
      them is as long as its header, leaves room for the buffer's own header below the server's limit, and has a
      known type. */
  method Session(cmds: seq<Command>, writes: seq<bool>) returns (sent: seq<Packet>, connected: bool)
    requires |writes| == |cmds| + 1
    ensures connected ==>
      ((forall beyond :: Behind(sent, beyond) ==> Received(sent, beyond) == Some(cmds)) <==> AllFine(cmds))
    ensures (forall i :: 0 <= i < |writes| ==> writes[i]) ==> connected
  {
    hide Holds, Flatten, Received, Behind, AllFine;
    var c := new Connection();
    for i := 0 to |cmds|
      invariant c.Valid() && fresh(c) && fresh(c.buffer)
      invariant c.isConnected ==> c.Log() == Taken(cmds[..i])
      invariant (forall j :: 0 <= j < i ==> writes[j]) ==> c.isConnected
    {
      var r := c.Alloc(cmds[i].kind, cmds[i].size, writes[i]);
      TakenMore(cmds[..i], cmds[i]);
      assert cmds[..i + 1] == cmds[..i] + [cmds[i]];
    }
    assert cmds[..|cmds|] == cmds;
    c.Flush(writes[|cmds|]);
    sent, connected := c.sent, c.isConnected;
    assert c.Log() == Flatten(c.groups);
    if connected { AllDelivered(sent, c.groups, cmds); }
  }

  lemma AllDelivered(sent: seq<Packet>, groups: seq<seq<Command>>, cmds: seq<Command>)
    requires AllHold(sent, groups) && Flatten(groups) == Taken(cmds)
    ensures (forall beyond :: Behind(sent, beyond) ==> Received(sent, beyond) == Some(cmds)) <==> AllFine(cmds)
  {
    hide Holds, Received, Flatten;
    TakenAll(cmds);
    DeliveredExactly(sent, groups);
    if Taken(cmds) != cmds {
      var ones: seq<seq<Byte>> := seq(|sent|, _ => seq(RECEIVE, _ => 255));
      assert Behind(sent, ones);
      if Received(sent, ones).Some? { ReceivedFine(sent, groups, ones); }
    }
  }

  /** The largest command the client takes: it is sent, and the server refuses it whatever lies behind. */
  method LargestRefused(kind: Word32, beyond: seq<Byte>) returns (sent: seq<Packet>, r: Option<seq<Command>>)
    requires |beyond| >= RECEIVE
    ensures sent != [] && r == None
  {
    hide Holds, HeaderBytes, Scan;
    var c := new Connection();
    var cmd := c.Alloc(kind, MAX_DATA, true);
    c.Flush(true);
    sent := c.sent;
    var b := sent[|sent| - 1];
    r := Process(b.bytes + beyond, b.amount, b.size);
  }

  /** A short command that is followed by another is never carried out as it was allocated. */
  lemma ShortNeverServed(b: Packet, cmds: seq<Command>, i: nat, beyond: seq<Byte>)
    requires Holds(b, cmds) && i + 1 < |cmds| && cmds[i].size < HEADER && |b.bytes + beyond| >= RECEIVE
    ensures Served(b.bytes + beyond, b.amount, b.size) != Some(cmds)
  {
    hide Laid, Scan;
    assert cmds[..|cmds| - 1][i] == cmds[i];
    if Served(b.bytes + beyond, b.amount, b.size) == Some(cmds) {
      forall j | 0 <= j < |cmds| ensures cmds[j].size <= MAX_DATA { SizeInTotal(cmds, j); }
      ServedFull(b.bytes + beyond, DATA, b.size, cmds);
    }
  }
}
