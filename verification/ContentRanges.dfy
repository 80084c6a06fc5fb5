/** Which `Content-Range` fields the client can read, and as what. */
module ContentRanges {
  import opened Wrappers
  import opened Texts
  import opened ResumableDownload

  predicate AreBlank(text: string) {
    forall i | 0 <= i < |text| :: text[i] == ' ' || text[i] == '\t'
  }

  /** Neither empty nor blank at its ends. */
  predicate IsTight(text: string) {
    text != "" && !IsBlank(text[0]) && !IsBlank(text[|text| - 1])
  }

  /** Digits with an optional plus sign, of a value below two to the power of 64. */
  ghost predicate IsNumber(text: string, n: nat) {
    exists sign: string, digits: string {:trigger sign + digits} ::
      && text == sign + digits && (sign == "" || sign == "+")
      && AllDigits(digits) && DecimalValue(digits) == n && n < 0x1_0000_0000_0000_0000
  }

  /** The parts of a field, with blanks where they are allowed. */
  datatype Parts = Parts(before: string, gap: string, first: string, afterFirst: string, last: string,
                         beforeSize: string, size: string, after: string)

  function FieldOf(p: Parts): string {
    p.before + ("bytes " + p.gap + (p.first + p.afterFirst + ['-'] + p.last) + ['/'] + p.beforeSize + p.size) + p.after
  }

  /** A unit, a number, a dash, anything without a slash, a slash, and a number or an asterisk. */
  ghost predicate ArePartsOf(p: Parts, first: nat, total: Option<nat>) {
    && AreBlank(p.before) && AreBlank(p.gap) && AreBlank(p.afterFirst) && AreBlank(p.beforeSize) && AreBlank(p.after)
    && IsNumber(p.first, first) && '/' !in p.last
    && (match total case None => p.size == "*" case Some(n) => IsNumber(p.size, n))
  }

  // Numbers

  lemma NumbersAreReadExactly(text: string, n: nat)
    ensures ParseU64(text) == Some(n) <==> IsNumber(text, n)
  {
    if ParseU64(text) == Some(n) {
      var signed := text != "" && text[0] == '+';
      assert text == (if signed then "+" else "") + (if signed then text[1..] else text);
    }
    if IsNumber(text, n) {
      var sign: string, digits: string :|
        && text == sign + digits && (sign == "" || sign == "+")
        && AllDigits(digits) && DecimalValue(digits) == n && n < 0x1_0000_0000_0000_0000;
      if sign == "" {
        assert text == digits && IsDigit(text[0]);
      } else {
        assert text[0] == '+' && text[1..] == digits;
      }
    }
  }

  lemma NumbersAreTight(text: string, n: nat)
    requires IsNumber(text, n)
    ensures IsTight(text) && forall i | 0 <= i < |text| :: text[i] == '+' || IsDigit(text[i])
  {
  }

  // Trimming

  lemma {:induction false} BlankStartGoes(blanks: string, text: string)
    requires AreBlank(blanks) && (text != "" ==> !IsBlank(text[0]))
    ensures TrimStart(blanks + text) == text
  {
    if blanks == "" {
      assert blanks + text == text;
    } else {
      assert (blanks + text)[1..] == blanks[1..] + text;
      BlankStartGoes(blanks[1..], text);
    }
  }

  lemma {:induction false} BlankEndGoes(text: string, blanks: string)
    requires AreBlank(blanks) && (text != "" ==> !IsBlank(text[|text| - 1]))
    ensures TrimEnd(text + blanks) == text
  {
    if blanks == "" {
      assert text + blanks == text;
    } else {
      assert (text + blanks)[..|text + blanks| - 1] == text + blanks[..|blanks| - 1];
      BlankEndGoes(text, blanks[..|blanks| - 1]);
    }
  }

  lemma TightIsKept(before: string, text: string, after: string)
    requires AreBlank(before) && IsTight(text) && AreBlank(after)
    ensures Trim(before + text + after) == text
  {
    assert before + text + after == before + (text + after);
    BlankStartGoes(before, text + after);
    BlankEndGoes(text, after);
  }

  lemma {:induction false} StartIsCut(text: string) returns (before: string)
    ensures text == before + TrimStart(text) && AreBlank(before)
  {
    before := "";
    if text != "" && IsBlank(text[0]) {
      before := StartIsCut(text[1..]);
      before := [text[0]] + before;
    }
  }

  lemma {:induction false} EndIsCut(text: string) returns (after: string)
    ensures text == TrimEnd(text) + after && AreBlank(after)
  {
    after := "";
    if text != "" && IsBlank(text[|text| - 1]) {
      after := EndIsCut(text[..|text| - 1]);
      assert text == text[..|text| - 1] + [text[|text| - 1]];
      after := after + [text[|text| - 1]];
    }
  }

  lemma TrimmedIsCut(text: string) returns (before: string, after: string)
    ensures text == before + Trim(text) + after && AreBlank(before) && AreBlank(after)
  {
    before := StartIsCut(text);
    after := EndIsCut(TrimStart(text));
  }

  /** Trimming the end stops at the last sign that is not blank. */
  lemma {:induction false} EndStopsAt(front: string, text: string)
    requires front != "" && !IsBlank(front[|front| - 1])
    ensures TrimEnd(front + text) == front + TrimEnd(text)
  {
    if text == "" {
      assert front + text == front;
    } else if IsBlank(text[|text| - 1]) {
      assert (front + text)[..|front + text| - 1] == front + text[..|text| - 1];
      EndStopsAt(front, text[..|text| - 1]);
    }
  }

  // What is read is written so

  lemma RangeParts(text: string, first: nat) returns (gap: string, number: string, afterFirst: string, last: string)
    requires SplitOnce(text, '-').Some? && ParseU64(Trim(SplitOnce(text, '-').value.0)) == Some(first)
    ensures text == gap + number + afterFirst + ['-'] + last
    ensures AreBlank(gap) && AreBlank(afterFirst) && IsNumber(number, first)
  {
    var parts := SplitOnce(text, '-').value;
    gap, afterFirst := TrimmedIsCut(parts.0);
    NumbersAreReadExactly(Trim(parts.0), first);
    return gap, Trim(parts.0), afterFirst, parts.1;
  }

  lemma ReadRange(range: string, first: nat) returns (gap: string, number: string, afterFirst: string, last: string)
    requires SplitOnce(Trim(range), '-').Some? && ParseU64(Trim(SplitOnce(Trim(range), '-').value.0)) == Some(first)
    requires '/' !in range
    ensures range == gap + (number + afterFirst + ['-'] + last) && '/' !in last
    ensures AreBlank(gap) && AreBlank(afterFirst) && IsNumber(number, first)
  {
    var before, after := TrimmedIsCut(range);
    var inner, rest;
    inner, number, afterFirst, rest := RangeParts(Trim(range), first);
    gap, last := before + inner, rest + after;
    JoinedRange(range, before, inner, number, afterFirst, rest, after);
  }

  lemma JoinedRange(range: string, before: string, gap: string, number: string, afterFirst: string, last: string, after: string)
    requires range == before + (gap + number + afterFirst + ['-'] + last) + after
    ensures range == (before + gap) + (number + afterFirst + ['-'] + (last + after))
    ensures '/' !in range ==> '/' !in last + after
  {
    if '/' !in range {
      var front := (before + gap) + (number + afterFirst + ['-']);
      assert range == front + (last + after);
      forall i | 0 <= i < |last + after| ensures (last + after)[i] != '/' {
        assert range[|front| + i] == (last + after)[i];
      }
    }
  }

  lemma ReadRest(text: string, first: nat, total: Option<nat>)
    returns (gap: string, number: string, afterFirst: string, last: string, beforeSize: string, size: string, end: string)
    requires SplitOnce(text, '/').Some?
    requires var (range, length) := SplitOnce(text, '/').value;
             && SplitOnce(Trim(range), '-').Some? && ParseU64(Trim(SplitOnce(Trim(range), '-').value.0)) == Some(first)
             && (match total case None => Trim(length) == "*" case Some(n) => ParseU64(Trim(length)) == Some(n))
    ensures text == gap + (number + afterFirst + ['-'] + last) + ['/'] + (beforeSize + size + end)
    ensures AreBlank(gap) && AreBlank(afterFirst) && AreBlank(beforeSize) && AreBlank(end)
    ensures IsNumber(number, first) && '/' !in last
    ensures match total case None => size == "*" case Some(n) => IsNumber(size, n)
  {
    var parts := SplitOnce(text, '/').value;
    gap, number, afterFirst, last := ReadRange(parts.0, first);
    beforeSize, end := TrimmedIsCut(parts.1);
    size := Trim(parts.1);
    if total.Some? {
      NumbersAreReadExactly(size, total.value);
    }
  }

  /** What reading a field has found. */
  lemma WhatWasRead(value: string, first: nat, total: Option<nat>) returns (text: string)
    requires ParseContentRange(value) == Some((first, total))
    ensures "bytes " <= Trim(value) && text == Trim(Trim(value)[6..]) && SplitOnce(text, '/').Some?
    ensures var (range, length) := SplitOnce(text, '/').value;
            && SplitOnce(Trim(range), '-').Some? && ParseU64(Trim(SplitOnce(Trim(range), '-').value.0)) == Some(first)
            && (match total case None => Trim(length) == "*" case Some(n) => ParseU64(Trim(length)) == Some(n))
  {
    text := Trim(Trim(value)[6..]);
  }

  lemma UnitIsCut(value: string) returns (before: string, left: string, right: string, after: string)
    requires "bytes " <= Trim(value)
    ensures value == before + ("bytes " + (left + Trim(Trim(value)[6..]) + right)) + after
    ensures AreBlank(before) && AreBlank(left) && AreBlank(right) && AreBlank(after)
  {
    before, after := TrimmedIsCut(value);
    left, right := TrimmedIsCut(Trim(value)[6..]);
    assert Trim(value) == "bytes " + Trim(value)[6..];
  }

  lemma ReadFieldHasParts(value: string, first: nat, total: Option<nat>) returns (p: Parts)
    requires ParseContentRange(value) == Some((first, total))
    ensures ArePartsOf(p, first, total) && FieldOf(p) == value
  {
    var text := WhatWasRead(value, first, total);
    var before, left, right, after := UnitIsCut(value);
    var gap, number, afterFirst, last, beforeSize, size, end := ReadRest(text, first, total);
    p := Parts(before, left + gap, number, afterFirst, last, beforeSize, size, end + right + after);
    JoinedField(value, p, left, gap, end, right, after);
  }

  lemma JoinedField(value: string, p: Parts, left: string, gap: string, end: string, right: string, after: string)
    requires p.gap == left + gap && p.after == end + right + after
    requires value == p.before + ("bytes " + (left + (gap + (p.first + p.afterFirst + ['-'] + p.last) + ['/']
                                                       + (p.beforeSize + p.size + end)) + right)) + after
    ensures FieldOf(p) == value
  {
  }

  // What is written so is read

  lemma RangeIsRead(p: Parts, first: nat)
    requires AreBlank(p.afterFirst) && IsNumber(p.first, first)
    ensures var range := p.first + p.afterFirst + ['-'] + p.last;
            && SplitOnce(Trim(range), '-').Some?
            && ParseU64(Trim(SplitOnce(Trim(range), '-').value.0)) == Some(first)
  {
    var front := p.first + p.afterFirst + ['-'];
    NumbersAreTight(p.first, first);
    assert front[0] == p.first[0];
    assert TrimStart(front + p.last) == front + p.last;
    EndStopsAt(front, p.last);
    SplitOnceInvertsJoin(p.first + p.afterFirst, '-', TrimEnd(p.last));
    TightIsKept("", p.first, p.afterFirst);
    assert "" + p.first + p.afterFirst == p.first + p.afterFirst;
    NumbersAreReadExactly(p.first, first);
  }

  lemma SizeIsTight(p: Parts, first: nat, total: Option<nat>)
    requires ArePartsOf(p, first, total)
    ensures IsTight(p.size) && Trim(p.beforeSize + p.size) == p.size
  {
    if total.Some? {
      NumbersAreTight(p.size, total.value);
    }
    TightIsKept(p.beforeSize, p.size, "");
    assert p.beforeSize + p.size + "" == p.beforeSize + p.size;
  }

  function RestOf(p: Parts): string {
    (p.first + p.afterFirst + ['-'] + p.last) + ['/'] + (p.beforeSize + p.size)
  }

  lemma RestIsTight(p: Parts, first: nat, total: Option<nat>)
    requires ArePartsOf(p, first, total)
    ensures IsTight(RestOf(p))
  {
    SizeIsTight(p, first, total);
    NumbersAreTight(p.first, first);
    assert RestOf(p)[0] == p.first[0] && RestOf(p)[|RestOf(p)| - 1] == p.size[|p.size| - 1];
  }

  lemma FieldIsTrimmed(p: Parts, rest: string)
    requires AreBlank(p.before) && AreBlank(p.gap) && AreBlank(p.after) && IsTight(rest) && rest == RestOf(p)
    ensures var field := Trim(FieldOf(p));
            "bytes " <= field && Trim(field[6..]) == rest
  {
    var field := "bytes " + (p.gap + rest);
    assert field[0] == 'b' && field[|field| - 1] == rest[|rest| - 1];
    assert FieldOf(p) == p.before + field + p.after;
    TightIsKept(p.before, field, p.after);
    assert field[6..] == p.gap + rest + "";
    TightIsKept(p.gap, rest, "");
  }

  lemma NoSlashBefore(p: Parts, first: nat)
    requires AreBlank(p.afterFirst) && IsNumber(p.first, first) && '/' !in p.last
    ensures '/' !in p.first + p.afterFirst + ['-'] + p.last
  {
    NumbersAreTight(p.first, first);
  }

  lemma PartsAreRead(p: Parts, first: nat, total: Option<nat>)
    requires ArePartsOf(p, first, total)
    ensures ParseContentRange(FieldOf(p)) == Some((first, total))
  {
    RestIsTight(p, first, total);
    FieldIsTrimmed(p, RestOf(p));
    NoSlashBefore(p, first);
    SplitOnceInvertsJoin(p.first + p.afterFirst + ['-'] + p.last, '/', p.beforeSize + p.size);
    RangeIsRead(p, first);
    SizeIsRead(p, first, total);
  }

  lemma SizeIsRead(p: Parts, first: nat, total: Option<nat>)
    requires ArePartsOf(p, first, total)
    ensures var size := Trim(p.beforeSize + p.size);
            match total case None => size == "*" case Some(n) => size != "*" && ParseU64(size) == Some(n)
  {
    SizeIsTight(p, first, total);
    if total.Some? {
      NumbersAreTight(p.size, total.value);
      NumbersAreReadExactly(p.size, total.value);
    }
  }

  /** A `Content-Range` is read exactly if it is put together so, and then as its first
      position and total length; the last position may be anything. */
  lemma ContentRangesAreReadExactly(value: string, first: nat, total: Option<nat>)
    ensures ParseContentRange(value) == Some((first, total))
            <==> exists p :: ArePartsOf(p, first, total) && FieldOf(p) == value
  {
    if ParseContentRange(value) == Some((first, total)) {
      var p := ReadFieldHasParts(value, first, total);
    }
    if p :| ArePartsOf(p, first, total) && FieldOf(p) == value {
      PartsAreRead(p, first, total);
    }
  }
}
