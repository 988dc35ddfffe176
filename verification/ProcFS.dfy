/**
 * The listening-socket tables of internal/localdiagnosis/procfs.go over a fixed snapshot: decoding an
 * address, reading a row, reading a table. A table is given as the whitespace-separated fields of its lines.
 */
module Procfs {
  import opened Text
  import opened Model
  import opened Sorting
  import opened Addresses

  datatype Listener = Listener(family: string, address: Address, port: nat, uid: nat, inode: nat, binding: string)

  // ---------------------------------------------------------------- hexadecimal numerals

  predicate IsHex(c: char) { '0' <= c <= '9' || 'a' <= c <= 'f' || 'A' <= c <= 'F' }

  predicate AllHex(s: string) { forall i :: 0 <= i < |s| ==> IsHex(s[i]) }

  function HexDigit(c: char): (d: nat)
    requires IsHex(c)
    ensures d < 16
  {
    if '0' <= c <= '9' then (c - '0') as nat
    else if 'a' <= c <= 'f' then (c - 'a') as nat + 10
    else (c - 'A') as nat + 10
  }

  function HexChar(d: nat): (c: char)
    requires d < 16
    ensures IsHex(c) && HexDigit(c) == d
  {
    if d < 10 then '0' + d as char else 'A' + (d - 10) as char
  }

  function HexValue(s: string): nat
    requires AllHex(s)
  {
    if s == "" then 0 else 16 * HexValue(s[..|s| - 1]) + HexDigit(s[|s| - 1])
  }

  /** strconv.ParseUint(s, 16, 64) */
  function ParseHex(s: string): Option<nat>
  {
    if s != "" && AllHex(s) && HexValue(s) <= MAX_UINT64 then Some(HexValue(s)) else None
  }

  /** The byte a pair of digits denotes, as hex.Decode reads it. */
  function PairValue(s: string, i: nat): (b: nat)
    requires AllHex(s) && 2 * i + 1 < |s|
    ensures b < 256
  {
    16 * HexDigit(s[2 * i]) + HexDigit(s[2 * i + 1])
  }

  function HexBytes(s: string): (r: seq<nat>)
    requires AllHex(s)
    ensures |r| == |s| / 2
  {
    seq(|s| / 2, i requires 0 <= i < |s| / 2 => PairValue(s, i))
  }

  // ---------------------------------------------------------------- addresses

  /** Where the byte at `i` of a word-reversed sequence comes from. */
  function Mirror(i: nat): nat { 4 * (i / 4) + (3 - i % 4) }

  /** Each group of four reversed. */
  function WordsReversed(s: seq<nat>): (r: seq<nat>)
    requires |s| % 4 == 0
    ensures |r| == |s|
  {
    seq(|s|, i requires 0 <= i < |s| => s[Mirror(i)])
  }

  lemma WordsReversedTwice(s: seq<nat>)
    requires |s| % 4 == 0
    ensures WordsReversed(WordsReversed(s)) == s
  {
    forall i | 0 <= i < |s|
      ensures Mirror(i) < |s| && Mirror(Mirror(i)) == i
    {
    }
  }

  /** The word reversal in place. */
  method ReverseWords(raw: array<nat>)
    requires raw.Length % 4 == 0
    modifies raw
    ensures raw[..] == WordsReversed(old(raw[..]))
  {
    var start := 0;
    while start < raw.Length
      invariant 0 <= start <= raw.Length && start % 4 == 0
      invariant forall k :: 0 <= k < start ==> raw[k] == old(raw[..])[Mirror(k)]
      invariant forall k :: start <= k < raw.Length ==> raw[k] == old(raw[k])
    {
      ReverseWord(raw, start);
      forall k | start <= k < start + 4
        ensures Mirror(k) == 2 * start + 3 - k
      {
      }
      start := start + 4;
    }
  }

  /** One word: two cursors meet in the middle. */
  method ReverseWord(raw: array<nat>, start: nat)
    requires start + 4 <= raw.Length
    modifies raw
    ensures forall k :: start <= k < start + 4 ==> raw[k] == old(raw[2 * start + 3 - k])
    ensures forall k :: 0 <= k < raw.Length && !(start <= k < start + 4) ==> raw[k] == old(raw[k])
  {
    var left, right := start, start + 3;
    while left < right
      invariant start <= left <= start + 2 && left + right == 2 * start + 3
      invariant forall k :: start <= k < left || right < k < start + 4 ==> raw[k] == old(raw[2 * start + 3 - k])
      invariant forall k :: left <= k <= right ==> raw[k] == old(raw[k])
      invariant forall k :: 0 <= k < raw.Length && !(start <= k < start + 4) ==> raw[k] == old(raw[k])
    {
      raw[left], raw[right] := raw[right], raw[left];
      left, right := left + 1, right - 1;
    }
  }

  /** The number the octets make, first octet first. */
  function OctetsValue(s: seq<nat>): nat
  {
    if s == [] then 0 else 256 * OctetsValue(s[..|s| - 1]) + s[|s| - 1]
  }

  function AddressOf(octets: seq<nat>): Address
  {
    if |octets| == 4 then V4(OctetsValue(octets)) else V6(OctetsValue(octets), "")
  }

  ghost predicate Octets(s: seq<nat>) { forall i :: 0 <= i < |s| ==> s[i] < 256 }

  lemma {:induction false} OctetsInjective(a: seq<nat>, b: seq<nat>)
    requires Octets(a) && Octets(b) && |a| == |b| && OctetsValue(a) == OctetsValue(b)
    ensures a == b
  {
    if a != [] {
      var n := |a| - 1;
      assert a[n] < 256 && b[n] < 256;
      OctetsInjective(a[..n], b[..n]);
      assert a == a[..n] + [a[n]] && b == b[..n] + [b[n]];
    }
  }

  function AddressLength(family: string): nat { if family == "IPV6" then 32 else 8 }

  /** The address a table column denotes: words of hexadecimal octets, each word last octet first. */
  function Decoded(value: string, family: string): Option<Address>
  {
    if |value| != AddressLength(family) || !AllHex(value) then None
    else Some(AddressOf(WordsReversed(HexBytes(value))))
  }

  /** decodeProcAddress */
  method DecodeProcAddress(value: string, family: string) returns (a: Option<Address>)
    ensures a == Decoded(value, family)
  {
    if |value| != AddressLength(family) || !AllHex(value) {
      return None;
    }
    var raw := new nat[|value| / 2](i requires 0 <= i < |value| / 2 => PairValue(value, i));
    assert raw[..] == HexBytes(value);
    ReverseWords(raw);
    a := Some(AddressOf(raw[..]));
  }

  /** How procfs prints an address. */
  function ProcText(octets: seq<nat>): (s: string)
    requires |octets| % 4 == 0 && Octets(octets)
    ensures |s| == 2 * |octets|
  {
    var words := WordsReversed(octets);
    seq(2 * |octets|, i requires 0 <= i < 2 * |octets| =>
      if i % 2 == 0 then HexChar(words[i / 2] / 16) else HexChar(words[i / 2] % 16))
  }

  /** Decoding inverts procfs's printing, so no two addresses share a text. */
  lemma DecodeInvertsProcText(octets: seq<nat>, family: string)
    requires Octets(octets) && 2 * |octets| == AddressLength(family)
    ensures Decoded(ProcText(octets), family) == Some(AddressOf(octets))
  {
    var s, words := ProcText(octets), WordsReversed(octets);
    assert AllHex(s);
    forall i | 0 <= i < |octets|
      ensures PairValue(s, i) == words[i]
    {
      assert s[2 * i] == HexChar(words[i] / 16) && s[2 * i + 1] == HexChar(words[i] % 16);
    }
    assert HexBytes(s) == words;
    WordsReversedTwice(octets);
  }

  lemma ProcTextInjective(a: seq<nat>, b: seq<nat>, family: string)
    requires Octets(a) && Octets(b) && 2 * |a| == 2 * |b| == AddressLength(family) && ProcText(a) == ProcText(b)
    ensures a == b
  {
    DecodeInvertsProcText(a, family);
    DecodeInvertsProcText(b, family);
    OctetsInjective(a, b);
  }

  /** bindingFor: the unspecified address is a wildcard, 127.0.0.1 and ::1 are loopback, the rest exact. */
  function BindingFor(a: Address): string
  {
    match a
    case V4(bits) => if bits == 0 then "WILDCARD" else if bits == 0x7F00_0001 then "LOOPBACK" else "EXACT"
    case V6(bits, zone) =>
      if zone == "" && bits == 0 then "WILDCARD" else if zone == "" && bits == 1 then "LOOPBACK" else "EXACT"
    case NoAddress => "EXACT"
  }

  // ---------------------------------------------------------------- rows

  /** The position of the last colon; the length when there is none. */
  function LastColon(s: string): (n: nat)
    ensures n <= |s|
    ensures n < |s| ==> s[n] == ':' && forall k :: n < k < |s| ==> s[k] != ':'
    ensures n == |s| ==> forall k :: 0 <= k < |s| ==> s[k] != ':'
  {
    if s == "" then 0
    else if s[|s| - 1] == ':' then |s| - 1
    else
      var n := LastColon(s[..|s| - 1]);
      if n == |s| - 1 then |s| else n
  }

  function SplitAtColon(s: string): Option<(string, string)>
  {
    var n := LastColon(s);
    if n == 0 || n >= |s| - 1 then None else Some((s[..n], s[n + 1..]))
  }

  /** The address and port of a column, port 0 included. */
  function Endpoint(value: string, family: string): Option<(Address, nat)>
  {
    var parts := SplitAtColon(value);
    if family !in {"IPV4", "IPV6"} || parts.None? then None
    else
      var port, address := ParseHex(parts.value.1), Decoded(parts.value.0, family);
      if port.None? || port.value > 65535 || address.None? then None else Some((address.value, port.value))
  }

  predicate ValidDecimal(s: string) { ParseUint(s).Some? }

  predicate ValidHexPair(s: string)
  {
    var parts := SplitAtColon(s);
    parts.Some? && ParseHex(parts.value.0).Some? && ParseHex(parts.value.1).Some?
  }

  predicate ValidRowId(s: string) { s != "" && s[|s| - 1] == ':' && ValidDecimal(s[..|s| - 1]) }

  /** A row whose columns all have their form. */
  predicate WellFormedRow(row: seq<string>, family: string)
  {
    && |row| >= 10 && ValidRowId(row[0])
    && Endpoint(row[1], family).Some? && Endpoint(row[2], family).Some?
    && |row[3]| == 2 && ParseHex(row[3]).Some?
    && ValidHexPair(row[4]) && ValidHexPair(row[5]) && ParseHex(row[6]).Some?
    && ValidDecimal(row[7]) && ValidDecimal(row[8]) && ValidDecimal(row[9])
  }

  predicate IgnoredRow(row: seq<string>) { row == [] || row[0] == "sl" }

  datatype RowResult = Ignored | Malformed | Found(listener: Listener)

  /** What one line contributes. */
  function ReadRow(row: seq<string>, family: string, port: nat): RowResult
  {
    if IgnoredRow(row) then Ignored
    else if !WellFormedRow(row, family) then Malformed
    else if row[3] != "0A" then Ignored
    else
      var (address, rowPort) := Endpoint(row[1], family).value;
      var inode := ParseUint(row[9]).value;
      if rowPort == 0 then Malformed
      else if rowPort != port then Ignored
      else if inode == 0 then Malformed
      else Found(Listener(family, address, rowPort, ParseUint(row[7]).value, inode, BindingFor(address)))
  }

  // ---------------------------------------------------------------- reading what the kernel prints

  function Pow16(width: nat): nat { if width == 0 then 1 else 16 * Pow16(width - 1) }

  /** %0{width}X on a number of at most that many digits. */
  function Hex(n: nat, width: nat): (s: string)
    ensures |s| == width && AllHex(s)
  {
    if width == 0 then "" else Hex(n / 16, width - 1) + [HexChar(n % 16)]
  }

  lemma {:induction false} HexReadsBack(n: nat, width: nat)
    requires n < Pow16(width)
    ensures HexValue(Hex(n, width)) == n
  {
    if width > 0 {
      HexReadsBack(n / 16, width - 1);
      assert Hex(n, width)[..width - 1] == Hex(n / 16, width - 1);
    }
  }

  lemma Widths()
    ensures Pow16(2) == 0x100 && Pow16(4) == 0x1_0000 && Pow16(8) == 0x1_0000_0000
  {
    assert Pow16(3) == 0x1000 && Pow16(5) == 0x10_0000 && Pow16(6) == 0x100_0000 && Pow16(7) == 0x1000_0000;
  }

  lemma HexParses(n: nat, width: nat)
    requires width in {2, 4, 8} && n < Pow16(width)
    ensures ParseHex(Hex(n, width)) == Some(n)
  {
    Widths();
    HexReadsBack(n, width);
  }

  /** What the kernel knows of a socket and prints in its line. */
  datatype Socket = Socket(
    slot: nat, octets: seq<nat>, port: nat, remote: seq<nat>, remotePort: nat, state: nat, txQueue: nat, rxQueue: nat,
    timer: nat, expires: nat, retransmits: nat, uid: nat, timeout: nat, inode: nat)

  const LISTEN := 10

  ghost predicate Printable(x: Socket, family: string)
  {
    && family in {"IPV4", "IPV6"}
    && Octets(x.octets) && 2 * |x.octets| == AddressLength(family) && x.port < 0x1_0000
    && Octets(x.remote) && 2 * |x.remote| == AddressLength(family) && x.remotePort < 0x1_0000
    && x.state < 0x100 && x.txQueue < 0x1_0000_0000 && x.rxQueue < 0x1_0000_0000
    && x.timer < 0x100 && x.expires < 0x1_0000_0000 && x.retransmits < 0x1_0000_0000
    && x.slot <= MAX_UINT64 && x.uid <= MAX_UINT64 && x.timeout <= MAX_UINT64 && x.inode <= MAX_UINT64
  }

  function EndpointText(octets: seq<nat>, port: nat): string
    requires |octets| % 4 == 0 && forall i :: 0 <= i < |octets| ==> octets[i] < 256
  {
    ProcText(octets) + ":" + Hex(port, 4)
  }

  function PairText(a: nat, m: nat, b: nat, n: nat): string { Hex(a, m) + ":" + Hex(b, n) }

  /** The columns of its line in /proc/net/tcp or tcp6; what comes after the inode is not read. */
  ghost predicate Prints(x: Socket, row: seq<string>, family: string)
  {
    && Printable(x, family) && |row| >= 10
    && row[0] == Itoa(x.slot) + ":"
    && row[1] == EndpointText(x.octets, x.port) && row[2] == EndpointText(x.remote, x.remotePort)
    && row[3] == Hex(x.state, 2)
    && row[4] == PairText(x.txQueue, 8, x.rxQueue, 8) && row[5] == PairText(x.timer, 2, x.expires, 8)
    && row[6] == Hex(x.retransmits, 8)
    && row[7] == Itoa(x.uid) && row[8] == Itoa(x.timeout) && row[9] == Itoa(x.inode)
  }

  lemma {:induction false} LastColonOfPair(a: string, b: string)
    requires AllHex(b)
    ensures LastColon(a + ":" + b) == |a|
  {
    var s := a + ":" + b;
    assert s[|a|] == ':' && forall k :: |a| < k < |s| ==> s[k] == b[k - |a| - 1];
    assert forall k :: 0 <= k < |b| ==> IsHex(b[k]);
    if LastColon(s) != |a| {
      assert false;
    }
  }

  lemma PairSplits(a: string, b: string)
    requires a != "" && b != "" && AllHex(b)
    ensures SplitAtColon(a + ":" + b) == Some((a, b))
  {
    LastColonOfPair(a, b);
    assert (a + ":" + b)[..|a|] == a && (a + ":" + b)[|a| + 1..] == b;
  }

  lemma EndpointReadsBack(octets: seq<nat>, port: nat, family: string)
    requires family in {"IPV4", "IPV6"} && Octets(octets) && 2 * |octets| == AddressLength(family) && port < 0x1_0000
    ensures Endpoint(EndpointText(octets, port), family) == Some((AddressOf(octets), port))
  {
    Widths();
    PairSplits(ProcText(octets), Hex(port, 4));
    HexParses(port, 4);
    DecodeInvertsProcText(octets, family);
  }

  lemma HexPairIsValid(a: nat, m: nat, b: nat, n: nat)
    requires m in {2, 8} && n == 8 && a < Pow16(m) && b < Pow16(n)
    ensures ValidHexPair(PairText(a, m, b, n))
  {
    PairSplits(Hex(a, m), Hex(b, n));
    HexParses(a, m);
    HexParses(b, n);
  }

  lemma DecimalReadsBack(n: nat)
    requires n <= MAX_UINT64
    ensures ParseUint(Itoa(n)) == Some(n) && ValidRowId(Itoa(n) + ":") && Itoa(n) + ":" != "sl"
  {
    ItoaValue(n);
    var s := Itoa(n) + ":";
    assert s[..|s| - 1] == Itoa(n) && s[|s| - 1] == ':';
  }

  lemma PrintedRowIsWellFormed(x: Socket, row: seq<string>, family: string)
    requires Prints(x, row, family)
    ensures WellFormedRow(row, family) && !IgnoredRow(row)
  {
    Widths();
    DecimalReadsBack(x.slot);
    EndpointReadsBack(x.octets, x.port, family);
    EndpointReadsBack(x.remote, x.remotePort, family);
    HexParses(x.state, 2);
    HexPairIsValid(x.txQueue, 8, x.rxQueue, 8);
    HexPairIsValid(x.timer, 2, x.expires, 8);
    HexParses(x.retransmits, 8);
    DecimalReadsBack(x.uid);
    DecimalReadsBack(x.timeout);
    DecimalReadsBack(x.inode);
  }

  lemma StateIsListen(state: nat)
    requires state < 0x100
    ensures Hex(state, 2) == "0A" <==> state == LISTEN
  {
    Widths();
    HexReadsBack(state, 2);
    HexReadsBack(LISTEN, 2);
    assert Hex(LISTEN, 2) == "0A" by {
      assert Hex(0, 1) == "0";
    }
  }

  /** Reading undoes printing: the listener on the wanted port comes back, every other state or port is passed over. */
  lemma PrintedRowIsRead(x: Socket, row: seq<string>, family: string, port: nat)
    requires Prints(x, row, family)
    ensures ReadRow(row, family, port) ==
            if x.state != LISTEN then Ignored
            else if x.port == 0 then Malformed
            else if x.port != port then Ignored
            else if x.inode == 0 then Malformed
            else var a := AddressOf(x.octets); Found(Listener(family, a, port, x.uid, x.inode, BindingFor(a)))
  {
    PrintedRowIsWellFormed(x, row, family);
    EndpointReadsBack(x.octets, x.port, family);
    StateIsListen(x.state);
    DecimalReadsBack(x.uid);
    DecimalReadsBack(x.inode);
  }

  // ---------------------------------------------------------------- all rows

  function ReadAll(rows: seq<seq<string>>, family: string, port: nat): (results: seq<RowResult>)
    ensures |results| == |rows|
  {
    seq(|rows|, i requires 0 <= i < |rows| => ReadRow(rows[i], family, port))
  }

  function ListenersOf(results: seq<RowResult>): seq<Listener>
  {
    if results == [] then []
    else
      ListenersOf(results[..|results| - 1]) +
      if results[|results| - 1].Found? then [results[|results| - 1].listener] else []
  }

  lemma {:induction false} ListenersOfExact(results: seq<RowResult>, l: Listener)
    ensures l in ListenersOf(results) <==> Found(l) in results
  {
    if results != [] {
      ListenersOfExact(results[..|results| - 1], l);
      assert forall r :: r in results <==> r in results[..|results| - 1] || r == results[|results| - 1];
    }
  }

  /** The listeners the rows of a table show, in row order. */
  function FoundIn(rows: seq<seq<string>>, family: string, port: nat): seq<Listener>
  {
    ListenersOf(ReadAll(rows, family, port))
  }

  lemma FoundInExact(rows: seq<seq<string>>, family: string, port: nat, l: Listener)
    ensures l in FoundIn(rows, family, port) <==> exists row :: row in rows && ReadRow(row, family, port) == Found(l)
  {
    var results := ReadAll(rows, family, port);
    ListenersOfExact(results, l);
    if Found(l) in results {
      var i :| 0 <= i < |results| && results[i] == Found(l);
      assert rows[i] in rows;
    } else if row :| row in rows && ReadRow(row, family, port) == Found(l) {
      var i :| 0 <= i < |rows| && rows[i] == row;
      assert results[i] == Found(l);
    }
  }

  ghost predicate TableComplete(rows: seq<seq<string>>, family: string, port: nat)
  {
    forall row :: row in rows ==> !ReadRow(row, family, port).Malformed?
  }

  // ---------------------------------------------------------------- tables

  predicate ListenerLess(a: Listener, b: Listener)
  {
    if a.family != b.family then Less(a.family, b.family)
    else if a.address != b.address then AddressLess(a.address, b.address)
    else if a.port != b.port then a.port < b.port
    else a.inode < b.inode
  }

  method ParseRow(row: seq<string>, family: string, port: nat) returns (r: RowResult)
    ensures r == ReadRow(row, family, port)
  {
    if IgnoredRow(row) {
      return Ignored;
    }
    if !WellFormedRow(row, family) {
      return Malformed;
    }
    if row[3] != "0A" {
      return Ignored;
    }
    var (address, rowPort) := Endpoint(row[1], family).value;
    if rowPort == 0 {
      return Malformed;
    }
    if rowPort != port {
      return Ignored;
    }
    var inode := ParseUint(row[9]).value;
    if inode == 0 {
      return Malformed;
    }
    r := Found(Listener(family, address, rowPort, ParseUint(row[7]).value, inode, BindingFor(address)));
  }

  /** parseProcTableWithStatus: one listener for each LISTEN row on the port; complete when no row is malformed. */
  method ParseTable(rows: seq<seq<string>>, family: string, port: nat) returns (listeners: seq<Listener>, complete: bool)
    ensures listeners == StableSort(ListenerLess, FoundIn(rows, family, port))
    ensures complete <==> TableComplete(rows, family, port)
  {
    listeners, complete := [], true;
    ghost var results := ReadAll(rows, family, port);
    for i := 0 to |rows|
      invariant listeners == ListenersOf(results[..i])
      invariant complete <==> forall k :: 0 <= k < i ==> !results[k].Malformed?
    {
      assert results[..i + 1][..i] == results[..i];
      var r := ParseRow(rows[i], family, port);
      match r {
        case Ignored =>
        case Malformed => complete := false;
        case Found(listener) => listeners := listeners + [listener];
      }
    }
    assert results[..|rows|] == results;
    NoneMalformed(rows, family, port);
    listeners := StableSort(ListenerLess, listeners);
  }

  lemma NoneMalformed(rows: seq<seq<string>>, family: string, port: nat)
    ensures TableComplete(rows, family, port) <==>
              forall k :: 0 <= k < |rows| ==> !ReadAll(rows, family, port)[k].Malformed?
  {
    if forall k :: 0 <= k < |rows| ==> !ReadAll(rows, family, port)[k].Malformed? {
      forall row | row in rows
        ensures !ReadRow(row, family, port).Malformed?
      {
        var k :| 0 <= k < |rows| && rows[k] == row;
        assert !ReadAll(rows, family, port)[k].Malformed?;
      }
    } else {
      var k :| 0 <= k < |rows| && ReadAll(rows, family, port)[k].Malformed?;
      assert rows[k] in rows;
    }
  }

  /** A row says that something listens on the port with this binding. */
  ghost predicate Listens(row: seq<string>, family: string, port: nat, binding: string)
  {
    && !IgnoredRow(row) && WellFormedRow(row, family) && row[3] == "0A"
    && Endpoint(row[1], family).value.1 == port
    && BindingFor(Endpoint(row[1], family).value.0) == binding
  }

  /** In a complete table, nothing found in a bucket means that no row listens there. */
  lemma EmptyBucketMeansNoRow(rows: seq<seq<string>>, family: string, port: nat, binding: string)
    requires TableComplete(rows, family, port)
    ensures (forall l :: l in FoundIn(rows, family, port) ==> l.binding != binding) <==>
              forall row :: row in rows ==> !Listens(row, family, port, binding)
  {
    if forall l :: l in FoundIn(rows, family, port) ==> l.binding != binding {
      forall row | row in rows
        ensures !Listens(row, family, port, binding)
      {
        var r := ReadRow(row, family, port);
        assert !r.Malformed?;
        if r.Found? {
          FoundInExact(rows, family, port, r.listener);
        }
      }
    } else {
      var l :| l in FoundIn(rows, family, port) && l.binding == binding;
      FoundInExact(rows, family, port, l);
      var row :| row in rows && ReadRow(row, family, port) == Found(l);
      assert Listens(row, family, port, binding);
    }
  }

  /** Of the kernel's lines, those that say so are the lines of sockets that listen there. */
  lemma PrintedRowListens(x: Socket, row: seq<string>, family: string, port: nat, binding: string)
    requires Prints(x, row, family)
    ensures Listens(row, family, port, binding) <==>
              x.state == LISTEN && x.port == port && BindingFor(AddressOf(x.octets)) == binding
  {
    PrintedRowIsWellFormed(x, row, family);
    EndpointReadsBack(x.octets, x.port, family);
    StateIsListen(x.state);
  }
}
