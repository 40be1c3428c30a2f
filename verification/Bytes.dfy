/** Byte strings. A byte is a `char`, so that a `std::vector<uint8_t>` and a
    `std::string` of the program are the same Dafny type, and nothing below
    depends on how many characters there are. */
module Bytes {

  type Byte = char

  type Buffer = seq<Byte>

  datatype Option<+T> = None | Some(value: T)

  /** A byte vector that is passed by reference and changed in place. */
  class ByteVector {
    var data: Buffer

    constructor (data: Buffer)
      ensures this.data == data
    {
      this.data := data;
    }
  }

  const CRLF: Buffer := "\r\n"

  /** The two bytes CR LF stand at position `i` of `b`. */
  predicate CrlfAt(b: Buffer, i: nat) {
    i + 1 < |b| && b[i] == '\r' && b[i + 1] == '\n'
  }

  ghost predicate NoCrlf(b: Buffer) {
    forall i :: 0 <= i < |b| ==> !CrlfAt(b, i)
  }

  /** The position of the first CR LF of `b`, and `|b|` when there is none. */
  function FirstCrlf(b: Buffer): (p: nat)
    ensures p <= |b|
    ensures p < |b| ==> CrlfAt(b, p)
    ensures forall i :: 0 <= i < p ==> !CrlfAt(b, i)
  {
    if |b| == 0 then 0
    else if CrlfAt(b, 0) then 0
    else
      var q := FirstCrlf(b[1..]);
      assert forall i :: 0 < i < |b| ==> CrlfAt(b, i) == CrlfAt(b[1..], i - 1);
      q + 1
  }

  /** What the contract of `FirstCrlf` says determines its value. */
  lemma FirstCrlfIs(b: Buffer, p: nat)
    requires CrlfAt(b, p) && forall i :: 0 <= i < p ==> !CrlfAt(b, i)
    ensures FirstCrlf(b) == p
  {
  }

  /** More bytes at the end do not move a CR LF that is already there, and can
      only add one that uses at least the new first byte. */
  lemma FirstCrlfAppend(b: Buffer, c: Buffer)
    ensures FirstCrlf(b) < |b| ==> FirstCrlf(b + c) == FirstCrlf(b)
    ensures FirstCrlf(b) == |b| ==> FirstCrlf(b + c) + 1 >= |b|
  {
    assert forall i :: 0 <= i && i + 1 < |b| ==> CrlfAt(b + c, i) == CrlfAt(b, i);
    if FirstCrlf(b) < |b| {
      FirstCrlfIs(b + c, FirstCrlf(b));
    }
  }

  /** A line without CR LF that is followed by one ends exactly there. */
  lemma FirstCrlfOfLine(line: Buffer, rest: Buffer)
    requires NoCrlf(line)
    ensures FirstCrlf(line + CRLF + rest) == |line|
  {
    var b := line + CRLF + rest;
    assert b[|line|] == '\r' && b[|line| + 1] == '\n';
    forall i | 0 <= i < |line|
      ensures !CrlfAt(b, i)
    {
      assert !CrlfAt(line, i);
      assert b[i] == line[i];
      if i + 1 == |line| {
        assert b[i + 1] == '\r';
      } else {
        assert b[i + 1] == line[i + 1];
      }
    }
    FirstCrlfIs(b, |line|);
  }

  /** The position of the first `c`, and `|s|` when there is none
      (`std::string::find` of one character). */
  function Find(s: Buffer, c: Byte): (p: nat)
    ensures p <= |s|
    ensures p < |s| ==> s[p] == c
    ensures c !in s[..p]
  {
    if s == [] then 0
    else if s[0] == c then 0
    else
      var p := 1 + Find(s[1..], c);
      assert s[..p] == [s[0]] + s[1..][..p - 1];
      p
  }

  predicate OccursAt(s: Buffer, sub: Buffer, i: int) {
    0 <= i <= |s| - |sub| && s[i..i + |sub|] == sub
  }

  /** `std::string::find(sub) != npos`. */
  predicate Contains(s: Buffer, sub: Buffer) {
    exists i | 0 <= i <= |s| :: OccursAt(s, sub, i)
  }

  /** The bytes a C function sees: everything before the first NUL. */
  function CString(s: Buffer): (t: Buffer)
    ensures t <= s && '\0' !in t
    ensures '\0' !in s ==> t == s
  {
    s[..Find(s, '\0')]
  }

  function ConcatAll(parts: seq<Buffer>): Buffer {
    if parts == [] then [] else parts[0] + ConcatAll(parts[1..])
  }

  lemma {:induction false} ConcatAllAppend(xs: seq<Buffer>, ys: seq<Buffer>)
    ensures ConcatAll(xs + ys) == ConcatAll(xs) + ConcatAll(ys)
  {
    if xs == [] {
      assert xs + ys == ys;
    } else {
      assert (xs + ys)[0] == xs[0] && (xs + ys)[1..] == xs[1..] + ys;
      ConcatAllAppend(xs[1..], ys);
    }
  }
}
