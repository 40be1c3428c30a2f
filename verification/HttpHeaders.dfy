/** The case-insensitive header map. */
module HttpHeaders {
  import opened Bytes
  import opened Numerals

  type HeaderMap = map<Buffer, Buffer>

  function LowerChar(c: char): char {
    if 'A' <= c <= 'Z' then (c as int + 32) as char else c
  }

  function ToLower(s: Buffer): (t: Buffer)
    ensures |t| == |s|
    ensures forall i :: 0 <= i < |s| ==> t[i] == LowerChar(s[i])
  {
    seq(|s|, i requires 0 <= i < |s| => LowerChar(s[i]))
  }

  lemma ToLowerTwice(s: Buffer)
    ensures ToLower(ToLower(s)) == ToLower(s)
  {
  }

  predicate MentionedAt(s: Buffer, word: Buffer, i: int) {
    0 <= i <= |s| - |word| && ToLower(s[i..i + |word|]) == word
  }

  /** `word` occurs in `s` in some capitalisation. */
  ghost predicate Mentions(s: Buffer, word: Buffer) {
    exists i :: MentionedAt(s, word, i)
  }

  lemma MentionsLowered(s: Buffer, word: Buffer)
    ensures Mentions(s, word) <==> Contains(ToLower(s), word)
  {
    forall i
      ensures OccursAt(ToLower(s), word, i) <==> MentionedAt(s, word, i)
    {
      if 0 <= i <= |s| - |word| {
        assert ToLower(s)[i..i + |word|] == ToLower(s[i..i + |word|]);
      }
    }
    if Mentions(s, word) {
      var i :| MentionedAt(s, word, i);
      assert 0 <= i <= |ToLower(s)| && OccursAt(ToLower(s), word, i);
    }
  }

  /** Every stored key has been lowered. */
  ghost predicate Lowered(m: HeaderMap) {
    forall k :: k in m ==> ToLower(k) == k
  }

  function Lookup(m: HeaderMap, key: Buffer): Option<Buffer> {
    if ToLower(key) in m then Some(m[ToLower(key)]) else None
  }

  function Stored(m: HeaderMap, key: Buffer, value: Buffer): HeaderMap {
    m[ToLower(key) := value]
  }

  /** `del` looks the lowered key up and then erases the key as it was
      written. */
  function Deleted(m: HeaderMap, key: Buffer): HeaderMap {
    if ToLower(key) in m then m - {key} else m
  }

  /** `del` removes a header exactly when the key is written in lower case:
      with any capital letter it changes nothing at all. */
  lemma DeletedExactly(m: HeaderMap, key: Buffer)
    requires Lowered(m) && ToLower(key) in m
    ensures Lookup(Deleted(m, key), key) == None <==> ToLower(key) == key
    ensures ToLower(key) != key ==> Deleted(m, key) == m
    ensures ToLower(key) == key ==> Deleted(m, key) == m - {ToLower(key)}
  {
    if ToLower(key) != key {
      assert key !in m;
    }
  }

  function ContentLengthOf(m: HeaderMap): nat {
    match Lookup(m, "content-length")
    case None => 0
    case Some(v) => StoullOrZero(v)
  }

  class HttpHeaders {
    var m_headers: HeaderMap

    constructor ()
      ensures m_headers == map[]
    {
      m_headers := map[];
    }

    /** `headers = HttpHeaders()`. */
    method Clear()
      modifies this
      ensures m_headers == map[]
    {
      m_headers := map[];
    }

    method Set(key: Buffer, value: Buffer)
      modifies this
      ensures m_headers == Stored(old(m_headers), key, value)
      ensures Get(key) == Some(value)
      ensures forall k :: ToLower(k) != ToLower(key) ==> Get(k) == old(Get(k))
      ensures old(Lowered(m_headers)) ==> Lowered(m_headers)
    {
      ToLowerTwice(key);
      m_headers := m_headers[ToLower(key) := value];
    }

    method Del(key: Buffer)
      modifies this
      ensures m_headers == Deleted(old(m_headers), key)
      ensures old(Lowered(m_headers)) && ToLower(key) != key ==> m_headers == old(m_headers)
    {
      if ToLower(key) in m_headers {
        m_headers := m_headers - {key};
      }
    }

    function Get(key: Buffer): Option<Buffer>
      reads this
    {
      Lookup(m_headers, key)
    }

    predicate Has(key: Buffer)
      reads this
      ensures Has(key) <==> Get(key).Some?
    {
      ToLower(key) in m_headers
    }

    function GetContentLength(): nat
      reads this
    {
      ContentLengthOf(m_headers)
    }
  }
}
