/** Which chunk-size lines are read, and how that compares with the grammar of
    section 7.1 of RFC 9112, `chunk-size [ chunk-ext ]`. */
module ChunkSizes {
  import opened Bytes
  import opened Numerals
  import opened HttpRequestParser

  /** What stands before the first `;`. */
  function SizeField(line: Buffer): Buffer {
    line[..Find(line, ';')]
  }

  /** The digits of a size field as `strtoul` sees it: up to the first NUL and
      without a `0x`. */
  function Core(field: Buffer): Buffer {
    var s := CString(field);
    if HasHexPrefix(s) then s[2..] else s
  }

  predicate Numeral(s: Buffer) {
    s != [] && AllDigits(s, 16) && Value(s, 16) < TWO64
  }

  /** The code reads a size from a line exactly when the core of its size field
      is a hexadecimal numeral below 2^64, and the size is its value. */
  lemma ChunkSizeIs(line: Buffer)
    ensures ChunkSizeOf(line) ==
            if Numeral(Core(SizeField(line))) then Some(Value(Core(SizeField(line)), 16)) else None
  {
    var field := SizeField(line);
    var s, core := CString(field), Core(field);
    if field != [] && s != [] && field[0] != '-' && field[0] != '+' && !IsSpace(field[0]) {
      assert s[0] == field[0] && SkipSpace(s) == s;
      DigitSpanAll(core, 16);
      assert core[..|core|] == core;
    } else if s != [] {
      assert s[0] == field[0] && !IsDigit(s[0], 16);
      assert core == s;
    }
  }

  // ---------------------------------------------------- the grammar of the RFC

  predicate IsBlank(c: char) {
    c == ' ' || c == '\t'
  }

  /** `BWS`, section 5.6.3 of RFC 9110. */
  predicate IsBws(s: Buffer) {
    forall i :: 0 <= i < |s| ==> IsBlank(s[i])
  }

  /** `tchar`, section 5.6.2 of RFC 9110. */
  predicate IsTokenChar(c: char) {
    '0' <= c <= '9' || 'a' <= c <= 'z' || 'A' <= c <= 'Z' || c in "!#$%&'*+-.^_`|~"
  }

  predicate IsToken(s: Buffer) {
    s != [] && forall i :: 0 <= i < |s| ==> IsTokenChar(s[i])
  }

  predicate IsObsText(c: char) {
    0x80 <= c as int <= 0xFF
  }

  /** `qdtext`, section 5.6.4 of RFC 9110. */
  predicate IsQuotedText(c: char) {
    IsBlank(c) || (0x21 <= c as int <= 0x7E && c != '"' && c != '\\') || IsObsText(c)
  }

  /** The rest of a `quoted-string` after its opening quote. */
  predicate IsQuotedRest(s: Buffer) {
    && s != []
    && if s[0] == '"' then |s| == 1
       else if s[0] == '\\' then
         && |s| > 1 && (IsBlank(s[1]) || 0x21 <= s[1] as int <= 0x7E || IsObsText(s[1]))
         && IsQuotedRest(s[2..])
       else IsQuotedText(s[0]) && IsQuotedRest(s[1..])
  }

  predicate IsQuotedString(s: Buffer) {
    s != [] && s[0] == '"' && IsQuotedRest(s[1..])
  }

  /** `[ BWS "=" BWS ( token / quoted-string ) ]` */
  ghost predicate IsExtValue(s: Buffer) {
    s == [] ||
    exists before, after, value ::
      IsBws(before) && IsBws(after) && (IsToken(value) || IsQuotedString(value)) &&
      s == before + (['='] + (after + value))
  }

  /** `BWS ";" BWS token [ BWS "=" BWS ( token / quoted-string ) ]` */
  ghost predicate IsExtItem(s: Buffer) {
    exists before, after, name, value ::
      IsBws(before) && IsBws(after) && IsToken(name) && IsExtValue(value) &&
      s == before + ([';'] + (after + (name + value)))
  }

  /** `chunk-ext`: any number of such items. */
  ghost predicate IsChunkExt(s: Buffer)
    decreases |s|
  {
    s == [] || exists k :: 0 < k <= |s| && IsExtItem(s[..k]) && IsChunkExt(s[k..])
  }

  /** The first `k` bytes of the line are its `chunk-size`. */
  ghost predicate IsRfcLine(line: Buffer, k: nat) {
    0 < k <= |line| && AllDigits(line[..k], 16) && IsChunkExt(line[k..])
  }

  /** The size by the RFC, for values that fit in 64 bits. */
  ghost function RfcSize(line: Buffer): Option<nat> {
    var k := DigitSpan(line, 16);
    if IsRfcLine(line, k) && Numeral(line[..k]) then Some(Value(line[..k], 16)) else None
  }

  lemma ExtShape(s: Buffer) returns (j: nat)
    requires IsChunkExt(s) && s != []
    ensures j + 1 < |s| && s[j] == ';' && IsBws(s[..j])
  {
    var k :| 0 < k <= |s| && IsExtItem(s[..k]) && IsChunkExt(s[k..]);
    hide IsChunkExt;
    var before, after, name, value :|
      IsBws(before) && IsBws(after) && IsToken(name) && IsExtValue(value) &&
      s[..k] == before + ([';'] + (after + (name + value)));
    j := |before|;
    assert s[..k][j] == ';' && s[..k][..j] == before;
    assert s[..j] == s[..k][..j];
  }

  /** A line has one `chunk-size` at most: all the digits that it begins with. */
  lemma RfcLineIsSpan(line: Buffer, k: nat)
    requires IsRfcLine(line, k)
    ensures k == DigitSpan(line, 16)
  {
    if k < |line| {
      var j := ExtShape(line[k..]);
      hide IsChunkExt;
      assert !IsDigit(line[k], 16) by {
        if j > 0 {
          assert line[k..][..j][0] == line[k];
        }
      }
    }
  }

  // -------------------------------------------------------------- the departures

  /** A numeral with a `0x` before it, or a NUL and anything after it. */
  ghost predicate Decorated(field: Buffer) {
    exists pre, core, post ::
      Numeral(core) && (pre == [] || pre == "0x" || pre == "0X") && (post == [] || post[0] == '\0') &&
      pre + post != [] && field == pre + (core + post)
  }

  /** A numeral, then white space, then a legal extension. */
  ghost predicate Padded(line: Buffer) {
    exists k :: 0 < k < |line| && Numeral(line[..k]) && IsBlank(line[k]) && IsChunkExt(line[k..])
  }

  /** A numeral, then a `;` that begins no legal extension. */
  ghost predicate BadlyExtended(line: Buffer) {
    exists k :: 0 < k < |line| && Numeral(line[..k]) && line[k] == ';' && !IsChunkExt(line[k..])
  }

  /** What `strtoul` makes of a decorated field. */
  lemma DecoratedRead(field: Buffer, pre: Buffer, core: Buffer, post: Buffer)
    requires Numeral(core) && (pre == [] || pre == "0x" || pre == "0X") && (post == [] || post[0] == '\0')
    requires field == pre + (core + post)
    ensures Core(field) == core
    ensures post != [] ==> '\0' in field
    ensures post == [] && pre != [] ==> HasHexPrefix(field)
  {
    hide Value;
    var s := pre + core;
    assert field == s + post;
    assert '\0' !in s;
    assert field[..|s|] == s;
    assert HasHexPrefix(s) <==> pre != [] by {
      if pre == [] {
        assert s == core;
        if |core| > 1 {
          assert IsDigit(core[1], 16);
        }
      }
    }
    if pre == [] {
      assert s == core;
    } else {
      assert s[2..] == core;
    }
    if post != [] {
      assert field[|s|] == '\0';
    } else {
      assert field == s;
    }
  }

  lemma DecoratedParts(field: Buffer)
    requires ('\0' in field || HasHexPrefix(field)) && Numeral(Core(field))
    ensures Decorated(field)
  {
    hide Value, Numeral;
    var s, core := CString(field), Core(field);
    hide CString;
    var pre, post := if HasHexPrefix(s) then s[..2] else [], field[|s|..];
    if HasHexPrefix(s) {
      PrefixIs(s);
    }
    hide HasHexPrefix;
    assert s == pre + core;
    assert field == pre + (core + post);
    assert post == [] || post[0] == '\0' by {
      CutIs(field);
    }
  }

  lemma PrefixIs(s: Buffer)
    requires HasHexPrefix(s)
    ensures s[..2] == "0x" || s[..2] == "0X"
  {
  }

  lemma CutIs(field: Buffer)
    ensures |CString(field)| < |field| ==> field[|CString(field)|] == '\0'
  {
  }

  lemma DecoratedIs(field: Buffer)
    ensures Decorated(field) <==> ('\0' in field || HasHexPrefix(field)) && Numeral(Core(field))
  {
    hide Value, Numeral, Core, HasHexPrefix;
    if Decorated(field) {
      var pre, core, post :|
        Numeral(core) && (pre == [] || pre == "0x" || pre == "0X") && (post == [] || post[0] == '\0') &&
        pre + post != [] && field == pre + (core + post);
      DecoratedRead(field, pre, core, post);
    }
    if ('\0' in field || HasHexPrefix(field)) && Numeral(Core(field)) {
      DecoratedParts(field);
    }
  }

  /** Where the size field is all digits, the extension decides. */
  lemma PlainField(line: Buffer)
    requires Numeral(SizeField(line))
    ensures ChunkSizeOf(line) == Some(Value(SizeField(line), 16))
    ensures RfcSize(line) == if BadlyExtended(line) then None else ChunkSizeOf(line)
    ensures !Decorated(SizeField(line)) && !Padded(line)
  {
    var field := SizeField(line);
    var n := |field|;
    PlainCore(field);
    ChunkSizeIs(line);
    DecoratedIs(field);
    assert DigitSpan(line, 16) == n by {
      DigitSpanIs(line, n, 16);
    }
    forall k | 0 < k < |line| && Numeral(line[..k]) && !IsDigit(line[k], 16)
      ensures k == n
    {
      DigitSpanIs(line, k, 16);
    }
    hide Value, IsChunkExt, DigitSpan;
    assert line[..n] == field;
    assert n < |line| ==> line[n] == ';';
    assert n == |line| ==> IsChunkExt(line[n..]) by {
      NoExt();
    }
  }

  lemma NoExt()
    ensures IsChunkExt([])
  {
  }

  lemma PlainCore(field: Buffer)
    requires AllDigits(field, 16)
    ensures Core(field) == field && '\0' !in field && !HasHexPrefix(field)
  {
    if |field| > 1 {
      assert IsDigit(field[1], 16);
    }
  }

  lemma FieldEnds(line: Buffer, k: nat)
    requires k <= |line| && AllDigits(line[..k], 16) && (k < |line| ==> line[k] == ';')
    ensures SizeField(line) == line[..k]
  {
    forall i | 0 <= i < k
      ensures line[..k][i] != ';'
    {
      assert IsDigit(line[..k][i], 16);
    }
  }

  /** Where it is not all digits, the code reads exactly the decorated fields. */
  lemma OtherFieldCode(line: Buffer)
    requires !Numeral(SizeField(line))
    ensures ChunkSizeOf(line).Some? <==> Decorated(SizeField(line))
  {
    hide ChunkSizeOf, Decorated, Numeral, HasHexPrefix;
    ChunkSizeIs(line);
    DecoratedIs(SizeField(line));
  }

  /** And the RFC exactly the padded lines. */
  lemma OtherFieldRfc(line: Buffer)
    requires !Numeral(SizeField(line))
    ensures RfcSize(line).Some? <==> Padded(line)
    ensures !BadlyExtended(line)
  {
    hide IsChunkExt, DigitSpan, SizeField, Value;
    if RfcSize(line).Some? {
      var k := DigitSpan(line, 16);
      if k == |line| || line[k] == ';' {
        FieldEnds(line, k);
        assert false;
      }
      var j := ExtShape(line[k..]);
      assert IsBlank(line[k]) by {
        assert line[k..][0] == line[k];
        assert j > 0 ==> line[k..][..j][0] == line[k];
      }
    }
    forall k | 0 < k < |line| && Numeral(line[..k]) && IsBlank(line[k]) && IsChunkExt(line[k..])
      ensures k == DigitSpan(line, 16)
    {
      RfcLineIsSpan(line, k);
    }
    forall k | 0 < k < |line| && Numeral(line[..k])
      ensures line[k] != ';'
    {
      if line[k] == ';' {
        FieldEnds(line, k);
        assert false;
      }
    }
  }

  /** A padded line has a blank after the digits of its size field. */
  lemma PaddedField(line: Buffer, k: nat)
    requires 0 < k < |line| && AllDigits(line[..k], 16) && IsBlank(line[k])
    ensures var field := SizeField(line);
            k < |field| && AllDigits(field[..k], 16) && IsBlank(field[k])
  {
    var field := SizeField(line);
    forall i | 0 <= i <= k
      ensures line[i] != ';'
    {
      assert i < k ==> IsDigit(line[..k][i], 16);
    }
    assert field[..k] == line[..k];
  }

  /** No decorated field has a blank after its digits. */
  lemma BlankNotDecorated(field: Buffer, k: nat)
    requires 0 < k < |field| && AllDigits(field[..k], 16) && IsBlank(field[k])
    ensures !Decorated(field)
  {
    hide Value;
    forall i | 0 <= i < k
      ensures IsDigit(field[i], 16)
    {
      assert field[..k][i] == field[i];
    }
    forall pre, core: Buffer, post: Buffer |
      Numeral(core) && (pre == [] || pre == "0x" || pre == "0X") && (post == [] || post[0] == '\0') &&
      pre + post != []
      ensures field != pre + (core + post)
    {
      var s := pre + (core + post);
      if pre == [] {
        assert s[|core|] == '\0';
        assert k < |core| ==> s[k] == core[k] && IsDigit(core[k], 16);
      } else {
        assert !IsDigit(s[1], 16) && !IsBlank(s[1]);
      }
    }
  }

  /** The code departs from the grammar of section 7.1 of RFC 9112 in three ways
      and no other: it reads decorated numerals and badly extended lines, which
      are not legal, and refuses padded lines, which are. */
  lemma AgreesWithRfcExactly(line: Buffer)
    ensures ChunkSizeOf(line) == RfcSize(line) <==>
            !Decorated(SizeField(line)) && !BadlyExtended(line) && !Padded(line)
    ensures Decorated(SizeField(line)) || BadlyExtended(line) ==> ChunkSizeOf(line).Some? && RfcSize(line).None?
    ensures Padded(line) ==> ChunkSizeOf(line).None? && RfcSize(line).Some?
  {
    if Numeral(SizeField(line)) {
      PlainField(line);
    } else {
      OtherFieldCode(line);
      OtherFieldRfc(line);
      if Padded(line) {
        hide IsChunkExt, Value;
        var k :| 0 < k < |line| && Numeral(line[..k]) && IsBlank(line[k]) && IsChunkExt(line[k..]);
        PaddedField(line, k);
        BlankNotDecorated(SizeField(line), k);
      }
    }
  }

  // -------------------------------------------------------------- a line of each

  lemma FiveIsNumeral()
    ensures Numeral("5") && Value("5", 16) == 5
  {
    assert "5"[..0] == "";
  }

  /** Four lines on which the two differ: a prefix, a NUL, an empty extension name,
      and white space before a legal extension. */
  lemma DepartureWitnesses()
    ensures ChunkSizeOf("0x5") == Some(5) && RfcSize("0x5") == None
    ensures ChunkSizeOf("5\0zz") == Some(5) && RfcSize("5\0zz") == None
    ensures ChunkSizeOf("5;") == Some(5) && RfcSize("5;") == None
    ensures ChunkSizeOf("5 ;a=b") == None && RfcSize("5 ;a=b") == Some(5)
  {
    DecoratedLine("0x5", "0x", "");
    DecoratedLine("5\0zz", "", "\0zz");
    EmptyName();
    PaddedLine();
  }

  lemma DecoratedLine(line: Buffer, pre: Buffer, post: Buffer)
    requires ';' !in line && line == pre + ("5" + post) && pre + post != []
    requires (pre == [] || pre == "0x" || pre == "0X") && (post == [] || post[0] == '\0')
    ensures ChunkSizeOf(line) == Some(5) && RfcSize(line) == None
  {
    hide ChunkSizeOf, RfcSize, Value;
    assert SizeField(line) == line;
    FiveIsNumeral();
    DecoratedRead(line, pre, "5", post);
    assert Decorated(line);
    ChunkSizeIs(line);
    AgreesWithRfcExactly(line);
  }

  lemma EmptyName()
    ensures ChunkSizeOf("5;") == Some(5) && RfcSize("5;") == None
  {
    hide ChunkSizeOf, RfcSize, Value, IsChunkExt;
    FiveIsNumeral();
    assert "5;"[..1] == "5" && "5;"[1..] == ";";
    FieldEnds("5;", 1);
    PlainField("5;");
    if IsChunkExt(";") {
      var j := ExtShape(";");
      assert false;
    }
    assert BadlyExtended("5;");
  }

  lemma PaddedLine()
    ensures ChunkSizeOf("5 ;a=b") == None && RfcSize("5 ;a=b") == Some(5)
  {
    hide ChunkSizeOf, Value;
    var line := "5 ;a=b";
    FiveIsNumeral();
    assert line[..1] == "5" && line[1..] == " ;a=b";
    LegalExtension();
    hide IsChunkExt, DigitSpan;
    assert Padded(line);
    AgreesWithRfcExactly(line);
    RfcLineIsSpan(line, 1);
  }

  lemma LegalExtension()
    ensures IsChunkExt(" ;a=b")
  {
    var s := " ;a=b";
    assert IsExtValue("=b") by {
      assert "=b" == "" + (['='] + ("" + "b"));
      assert IsToken("b") && IsBws("");
    }
    assert IsExtItem(s) by {
      assert s == " " + ([';'] + ("" + ("a" + "=b")));
      assert IsToken("a") && IsBws(" ") && IsBws("");
    }
    NoExt();
    hide IsExtItem, IsChunkExt;
    ItemIsExt(s);
  }

  lemma ItemIsExt(s: Buffer)
    requires s != [] && IsExtItem(s)
    ensures IsChunkExt(s)
  {
    assert s[..|s|] == s && s[|s|..] == [];
    NoExt();
  }
}
