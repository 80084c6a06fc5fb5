/** Finding the Runtime's admin password in the UTF-16 environment block of its process. */
module EnvironmentBlock {
  import opened Wrappers
  import opened Sequences

  const BUFFER_UNITS := 524288
  const MAX_VALUE_UNITS := 4096

  /** A UTF-16 code unit. */
  type unit = value: int | 0 <= value < 65536

  /** The letters of `M2EE_ADMIN_PASS=`. */
  const NAME: seq<unit> := [77, 50, 69, 69, 95, 65, 68, 77, 73, 78, 95, 80, 65, 83, 83, 61]

  predicate IsHighSurrogate(u: unit) {
    0xD800 <= u < 0xDC00
  }

  predicate IsLowSurrogate(u: unit) {
    0xDC00 <= u < 0xE000
  }

  /** Strict UTF-16: surrogates only in pairs. */
  predicate IsText(units: seq<unit>) {
    if units == [] then true
    else if IsHighSurrogate(units[0]) then |units| > 1 && IsLowSurrogate(units[1]) && IsText(units[2..])
    else !IsLowSurrogate(units[0]) && IsText(units[1..])
  }

  function UnitAt(bytes: seq<byte>, k: nat): unit
    requires 2 * k + 1 < |bytes|
  {
    bytes[2 * k] as int + 256 * (bytes[2 * k + 1] as int)
  }

  /** Little-endian code units; a last odd byte cannot be read as one. */
  function UnitsOf(bytes: seq<byte>): (units: seq<unit>)
    ensures |units| == |bytes| / 2
  {
    seq(|bytes| / 2, k requires 0 <= k < |bytes| / 2 => UnitAt(bytes, k))
  }

  /** What one entry does to the value found so far; None if it must not be there. */
  function WithEntry(found: Option<seq<unit>>, entry: seq<unit>): Option<Option<seq<unit>>> {
    if !(NAME <= entry) then Some(found)
    else
      var value := entry[|NAME|..];
      if found.Some? || |value| > MAX_VALUE_UNITS || !IsText(value) then None else Some(Some(value))
  }

  /** At the empty entry: the value, if there is one and it is not empty. */
  function AtEnd(found: Option<seq<unit>>): Option<seq<unit>> {
    if found == Some([]) then None else found
  }

  /** Reads on from unit `used`, inside the entry that began at `start`. */
  function Scan(units: seq<unit>, start: nat, used: nat, found: Option<seq<unit>>): Option<seq<unit>>
    requires start <= used <= |units|
    decreases |units| - used
  {
    if used >= BUFFER_UNITS || used == |units| then None
    else if units[used] != 0 then Scan(units, start, used + 1, found)
    else if used == start then AtEnd(found)
    else match WithEntry(found, units[start..used])
      case None => None
      case Some(next) => Scan(units, used + 1, used + 1, next)
  }

  // The program

  predicate ZeroOutside(bytes: seq<byte>, from: nat, to: nat) {
    forall i | 0 <= i < |bytes| && !(from <= i < to) :: bytes[i] == 0
  }

  method Clear(buffer: array<byte>, from: nat, to: nat)
    requires from <= to <= buffer.Length
    modifies buffer
    ensures forall i | 0 <= i < buffer.Length :: buffer[i] == if from <= i < to then 0 else old(buffer[i])
  {
    forall i | from <= i < to {
      buffer[i] := 0;
    }
  }

  /** Compares the entry with the name, unit by unit. */
  method MatchesName(environment: array<byte>, start: nat, used: nat) returns (matches: bool)
    requires start <= used && 2 * used <= environment.Length
    ensures matches <==> NAME <= UnitsOf(environment[..])[start..used]
  {
    ghost var entry := UnitsOf(environment[..])[start..used];
    matches := used - start >= |NAME|;
    var i := 0;
    while matches && i < |NAME|
      invariant 0 <= i <= |NAME|
      invariant matches ==> |NAME| <= |entry| && forall k | 0 <= k < i :: entry[k] == NAME[k]
      invariant !matches ==> !(NAME <= entry)
    {
      matches := environment[2 * (start + i)] as int == NAME[i] && environment[2 * (start + i) + 1] == 0;
      assert entry[i] == UnitAt(environment[..], start + i);
      i := i + 1;
    }
  }

  /** Takes the value from the entry if it has the name. */
  method TakeEntry(environment: array<byte>, start: nat, end: nat, found: Option<seq<unit>>)
    returns (next: Option<Option<seq<unit>>>)
    requires start <= end && 2 * end <= environment.Length
    ensures next == WithEntry(found, UnitsOf(environment[..])[start..end])
  {
    var matches := MatchesName(environment, start, end);
    if !matches {
      return Some(found);
    }
    var value := UnitsOf(environment[2 * (start + |NAME|)..2 * end]);
    assert value == UnitsOf(environment[..])[start..end][|NAME|..];
    if found.Some? || |value| > MAX_VALUE_UNITS || !IsText(value) {
      return None;
    }
    next := Some(Some(value));
  }

  /** The buffer holds the current entry and nothing else. */
  ghost predicate HoldsEntry(buffer: seq<byte>, memory: seq<byte>, start: nat, used: nat) {
    && start <= used && 2 * used <= |memory| && 2 * used <= |buffer|
    && ZeroOutside(buffer, 2 * start, 2 * used)
    && forall i | 2 * start <= i < 2 * used :: buffer[i] == memory[i]
  }

  lemma HeldEntry(buffer: seq<byte>, memory: seq<byte>, start: nat, used: nat)
    requires HoldsEntry(buffer, memory, start, used)
    ensures forall k | start <= k < used :: UnitsOf(buffer)[k] == UnitsOf(memory)[k]
    ensures forall end | start <= end <= used :: UnitsOf(buffer)[start..end] == UnitsOf(memory)[start..end]
  {
  }

  /** Reads the block from the memory that starts at its address. The buffer is handed out
      only so that its contents can be stated. */
  method M2eePassword(memory: seq<byte>) returns (result: Option<seq<unit>>, environment: array<byte>)
    ensures result == Scan(UnitsOf(memory), 0, 0, None)
    ensures fresh(environment) && ZeroOutside(environment[..], 0, 0)
  {
    environment := new byte[2 * BUFFER_UNITS](_ => 0);
    result := ReadBlock(memory, environment);
    // Whatever happens, nothing of the block stays behind.
    Clear(environment, 0, environment.Length);
  }

  /** The next unit of the memory, put behind the current entry. */
  method ReadUnit(memory: seq<byte>, environment: array<byte>, ghost start: nat, used: nat)
    requires 2 * used + 2 <= environment.Length && 2 * used + 2 <= |memory|
    requires HoldsEntry(environment[..], memory, start, used)
    modifies environment
    ensures HoldsEntry(environment[..], memory, start, used + 1)
    ensures environment[2 * used] == memory[2 * used] && environment[2 * used + 1] == memory[2 * used + 1]
  {
    environment[2 * used], environment[2 * used + 1] := memory[2 * used], memory[2 * used + 1];
  }

  method ClearEntry(environment: array<byte>, ghost memory: seq<byte>, start: nat, used: nat)
    requires HoldsEntry(environment[..], memory, start, used)
    modifies environment
    ensures HoldsEntry(environment[..], memory, used, used)
  {
    Clear(environment, 2 * start, 2 * used);
  }

  method ReadBlock(memory: seq<byte>, environment: array<byte>) returns (result: Option<seq<unit>>)
    requires environment.Length == 2 * BUFFER_UNITS && ZeroOutside(environment[..], 0, 0)
    modifies environment
    ensures result == Scan(UnitsOf(memory), 0, 0, None)
  {
    var used: nat, start: nat := 0, 0;
    var found: Option<seq<unit>> := None;
    ghost var units := UnitsOf(memory);
    while used < BUFFER_UNITS
      invariant used <= BUFFER_UNITS && HoldsEntry(environment[..], memory, start, used)
      invariant Scan(units, start, used, found) == Scan(units, 0, 0, None)
      decreases BUFFER_UNITS - used
    {
      if 2 * used + 2 > |memory| {
        return None;
      }
      ReadUnit(memory, environment, start, used);
      assert units[used] == UnitAt(memory, used);
      used := used + 1;
      if environment[2 * used - 2] != 0 || environment[2 * used - 1] != 0 {
        continue;
      }
      if used - start == 1 {
        return AtEnd(found);
      }
      HeldEntry(environment[..], memory, start, used);
      var next := TakeEntry(environment, start, used - 1, found);
      if next.None? {
        return None;
      }
      found := next.value;
      ClearEntry(environment, memory, start, used);
      start := used;
    }
    result := None;
  }

  // What is found in a well-formed block

  /** Neither empty nor containing the terminator. */
  predicate IsEntry(entry: seq<unit>) {
    entry != [] && forall k | 0 <= k < |entry| :: entry[k] != 0
  }

  predicate AreEntries(entries: seq<seq<unit>>) {
    forall i | 0 <= i < |entries| :: IsEntry(entries[i])
  }

  /** Zero-terminated entries and an empty one. */
  function Block(entries: seq<seq<unit>>): seq<unit> {
    if entries == [] then [0] else entries[0] + [0] + Block(entries[1..])
  }

  /** What the entries say, one after another. */
  function Search(entries: seq<seq<unit>>, found: Option<seq<unit>>): Option<seq<unit>> {
    if entries == [] then AtEnd(found)
    else match WithEntry(found, entries[0])
      case None => None
      case Some(next) => Search(entries[1..], next)
  }

  lemma {:induction false} ScanToTerminator(units: seq<unit>, start: nat, used: nat, end: nat, found: Option<seq<unit>>)
    requires start <= used <= end < |units| && (forall k | used <= k < end :: units[k] != 0)
    ensures end < BUFFER_UNITS ==> Scan(units, start, used, found) == Scan(units, start, end, found)
    ensures end >= BUFFER_UNITS ==> Scan(units, start, used, found).None?
    decreases end - used
  {
    if used < end && used < BUFFER_UNITS {
      ScanToTerminator(units, start, used + 1, end, found);
    }
  }

  /** Reading the block where it lies in memory is going through its entries, if the
      terminator lies within the buffer; otherwise reading fails. */
  lemma {:induction false} ScanSearches(units: seq<unit>, at: nat, entries: seq<seq<unit>>, found: Option<seq<unit>>)
    requires AreEntries(entries) && at + |Block(entries)| <= |units|
    requires units[at..at + |Block(entries)|] == Block(entries)
    ensures Scan(units, at, at, found)
         == if at + |Block(entries)| <= BUFFER_UNITS then Search(entries, found) else None
    decreases |entries|
  {
    var block := Block(entries);
    assert forall k | 0 <= k < |block| :: units[at + k] == block[k];
    if entries != [] {
      var entry, rest := entries[0], Block(entries[1..]);
      var end := at + |entry|;
      assert IsEntry(entry);
      EntryAt(units, at, entry, rest);
      ScanToTerminator(units, at, at, end, found);
      if WithEntry(found, entry).Some? {
        ScanSearches(units, end + 1, entries[1..], WithEntry(found, entry).value);
      }
    }
  }

  lemma EntryAt(units: seq<unit>, at: nat, entry: seq<unit>, rest: seq<unit>)
    requires at + |entry| + 1 + |rest| <= |units| && units[at..at + |entry| + 1 + |rest|] == entry + [0] + rest
    ensures units[at..at + |entry|] == entry && units[at + |entry|] == 0
    ensures units[at + |entry| + 1..at + |entry| + 1 + |rest|] == rest
    ensures forall k | at <= k < at + |entry| :: units[k] == entry[k - at]
  {
    var block := entry + [0] + rest;
    assert forall k | 0 <= k < |block| :: units[at + k] == block[k];
    forall k | at <= k < at + |entry| ensures units[k] == entry[k - at] {
      assert units[at + (k - at)] == block[k - at];
    }
    forall k | 0 <= k < |rest| ensures units[at + |entry| + 1 + k] == rest[k] {
      assert units[at + (|entry| + 1 + k)] == block[|entry| + 1 + k];
    }
    assert units[at + |entry|] == block[|entry|];
  }

  /** The one entry with the name is at `i`. */
  predicate OnlyEntry(entries: seq<seq<unit>>, i: nat) {
    i < |entries| && NAME <= entries[i] && forall j | 0 <= j < |entries| && j != i :: !(NAME <= entries[j])
  }

  predicate IsValue(value: seq<unit>) {
    0 < |value| <= MAX_VALUE_UNITS && IsText(value)
  }

  lemma {:induction false} SearchAfterFound(entries: seq<seq<unit>>, value: seq<unit>)
    ensures Search(entries, Some(value))
         == if exists j | 0 <= j < |entries| :: NAME <= entries[j] then None else AtEnd(Some(value))
  {
    if entries != [] {
      SearchAfterFound(entries[1..], value);
      assert forall j | 1 <= j < |entries| :: entries[j] == entries[1..][j - 1];
    }
  }

  /** The search succeeds with a value exactly when one entry, and only one, gives it. */
  lemma {:induction false} SearchFindsTheOnly(entries: seq<seq<unit>>, value: seq<unit>)
    ensures Search(entries, None) == Some(value)
       <==> exists i: nat :: OnlyEntry(entries, i) && entries[i] == NAME + value && IsValue(value)
  {
    if entries != [] {
      var tail := entries[1..];
      assert forall j | 1 <= j < |entries| :: entries[j] == tail[j - 1];
      if NAME <= entries[0] {
        var first := entries[0][|NAME|..];
        assert entries[0] == NAME + first;
        SearchAfterFound(tail, first);
        FirstIsOnly(entries, value);
      } else {
        SearchFindsTheOnly(tail, value);
        LaterIsOnly(entries, value);
      }
    }
  }

  lemma FirstIsOnly(entries: seq<seq<unit>>, value: seq<unit>)
    requires entries != [] && NAME <= entries[0]
    ensures (exists i: nat :: OnlyEntry(entries, i) && entries[i] == NAME + value && IsValue(value))
       <==> entries[0] == NAME + value && IsValue(value) && !(exists j | 0 <= j < |entries[1..]| :: NAME <= entries[1..][j])
  {
    assert forall j | 1 <= j < |entries| :: entries[j] == entries[1..][j - 1];
    assert forall j | 0 <= j < |entries[1..]| :: entries[1..][j] == entries[j + 1];
    if entries[0] == NAME + value && IsValue(value) && !(exists j | 0 <= j < |entries[1..]| :: NAME <= entries[1..][j]) {
      assert OnlyEntry(entries, 0);
    }
  }

  lemma LaterIsOnly(entries: seq<seq<unit>>, value: seq<unit>)
    requires entries != [] && !(NAME <= entries[0])
    ensures (exists i: nat :: OnlyEntry(entries, i) && entries[i] == NAME + value && IsValue(value))
       <==> (exists i: nat :: OnlyEntry(entries[1..], i) && entries[1..][i] == NAME + value && IsValue(value))
  {
    var tail := entries[1..];
    assert forall j | 1 <= j < |entries| :: entries[j] == tail[j - 1];
    assert forall j | 0 <= j < |tail| :: tail[j] == entries[j + 1];
    forall i: nat | OnlyEntry(tail, i) ensures OnlyEntry(entries, i + 1) {
    }
    forall i: nat | OnlyEntry(entries, i) ensures i > 0 && OnlyEntry(tail, i - 1) {
    }
  }

  // Text

  /** A Unicode scalar value. */
  type scalar = value: int | 0 <= value < 0x110000 && !(0xD800 <= value < 0xE000)

  /** One unit, or two for what lies beyond them. */
  function UnitsOfScalar(c: scalar): seq<unit> {
    if c < 0x10000 then [c] else [0xD800 + (c - 0x10000) / 0x400, 0xDC00 + (c - 0x10000) % 0x400]
  }

  function Utf16(text: seq<scalar>): seq<unit> {
    if text == [] then [] else UnitsOfScalar(text[0]) + Utf16(text[1..])
  }

  lemma {:induction false} EncodedIsText(text: seq<scalar>)
    ensures IsText(Utf16(text))
  {
    if text != [] {
      var first, rest := UnitsOfScalar(text[0]), Utf16(text[1..]);
      EncodedIsText(text[1..]);
      assert (first + rest)[|first|..] == rest;
    }
  }

  lemma {:induction false} TextIsEncoded(units: seq<unit>) returns (text: seq<scalar>)
    requires IsText(units)
    ensures Utf16(text) == units
  {
    if units == [] {
      text := [];
    } else if IsHighSurrogate(units[0]) {
      var rest := TextIsEncoded(units[2..]);
      text := [0x10000 + (units[0] as int - 0xD800) * 0x400 + (units[1] as int - 0xDC00)] + rest;
      assert text[1..] == rest;
      assert units == [units[0], units[1]] + units[2..];
    } else {
      var rest := TextIsEncoded(units[1..]);
      text := [units[0]] + rest;
      assert text[1..] == rest;
      assert units == [units[0]] + units[1..];
    }
  }

  /** Text is what encodes a sequence of Unicode scalar values. */
  lemma TextsAreTheEncodings(units: seq<unit>)
    ensures IsText(units) <==> exists text :: Utf16(text) == units
  {
    if IsText(units) {
      var text := TextIsEncoded(units);
    }
    if text :| Utf16(text) == units {
      EncodedIsText(text);
    }
  }

  /** The code units of ASCII text. */
  function Letters(text: string): seq<unit> {
    seq(|text|, i requires 0 <= i < |text| => if text[i] < '\U{80}' then text[i] as int else 0)
  }

  /** Code units in memory, least significant byte first. */
  function Bytes(units: seq<unit>): (bytes: seq<byte>)
    ensures |bytes| == 2 * |units|
  {
    if units == [] then [] else [units[0] % 256, units[0] / 256] + Bytes(units[1..])
  }

  lemma {:induction false} BytesAt(units: seq<unit>, k: nat)
    requires k < |units|
    ensures Bytes(units)[2 * k] == units[k] % 256 && Bytes(units)[2 * k + 1] == units[k] / 256
  {
    if k > 0 {
      BytesAt(units[1..], k - 1);
    }
  }

  lemma MemoryHolds(units: seq<unit>, memory: seq<byte>)
    requires Bytes(units) <= memory
    ensures units <= UnitsOf(memory)
  {
    forall k: nat | k < |units| ensures units[k] == UnitsOf(memory)[k] {
      BytesAt(units, k);
      assert memory[2 * k] == Bytes(units)[2 * k] && memory[2 * k + 1] == Bytes(units)[2 * k + 1];
    }
  }

  lemma NameIsSpelled()
    ensures NAME == Letters("M2EE_ADMIN_PASS=")
  {
    var spelled := Letters("M2EE_ADMIN_PASS=");
    assert forall i | 0 <= i < 16 :: NAME[i] == spelled[i];
  }

  /** On a block of zero-terminated entries, whatever memory follows it, the reader returns
      exactly the value of the one entry that begins with `M2EE_ADMIN_PASS=`; it fails if
      there is none, or another, or if the value is empty, longer than 4096 units or not text,
      or if the terminator lies past the buffer of one MiB. */
  lemma PasswordIsFoundExactly(memory: seq<byte>, entries: seq<seq<unit>>, value: seq<unit>)
    requires AreEntries(entries) && Bytes(Block(entries)) <= memory
    ensures Scan(UnitsOf(memory), 0, 0, None) == Some(value)
       <==> && 2 * |Block(entries)| <= 1048576
            && 0 < |value| <= 4096 && (exists text :: Utf16(text) == value)
            && exists i: nat :: OnlyEntry(entries, i) && entries[i] == Letters("M2EE_ADMIN_PASS=") + value
  {
    MemoryHolds(Block(entries), memory);
    ScanSearches(UnitsOf(memory), 0, entries, None);
    SearchFindsTheOnly(entries, value);
    TextsAreTheEncodings(value);
    NameIsSpelled();
  }
}
