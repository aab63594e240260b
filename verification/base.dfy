/** Shared vocabulary of the model: optional values, anyhow-style errors with a
    context chain, fixed-width integer ranges, decimal formatting and the
    whitespace/line conventions of Rust's standard library. */
module Base {

  datatype Option<+T> = None | Some(value: T)

  /** An error as the `anyhow` crate keeps it: the outermost message (what
      `to_string()` shows) and the chain of causes beneath it (what `{:?}` shows). */
  datatype Error = Error(message: string, causes: seq<string>)

  /** `.context(msg)`: wrap an error under a new outermost message. */
  function Context(e: Error, msg: string): (r: Error)
    ensures r.message == msg && r.causes == [e.message] + e.causes
  {
    Error(msg, [e.message] + e.causes)
  }

  /** `anyhow!(msg)` / `bail!(msg)`: a fresh error with no causes. */
  function Fresh(msg: string): Error
  {
    Error(msg, [])
  }

  /** Every message an error carries, outermost first. */
  function Messages(e: Error): seq<string>
  {
    [e.message] + e.causes
  }

  datatype Result<+T> = Ok(value: T) | Err(error: Error)

  /** `anyhow::Result<()>`. */
  datatype Outcome = Pass | Fail(error: Error)

  type i32 = x: int | -0x8000_0000 <= x < 0x8000_0000
  type u32 = x: int | 0 <= x < 0x1_0000_0000

  // ---------------------------------------------------------------------------
  // Decimal formatting, as `format!("{}", n)` writes integers.

  function DigitChar(d: nat): (c: char)
    requires d < 10
    ensures '0' <= c <= '9'
  {
    ['0', '1', '2', '3', '4', '5', '6', '7', '8', '9'][d]
  }

  function DigitValue(c: char): nat
  {
    if '0' <= c <= '9' then (c as int - '0' as int) as nat else 0
  }

  /** Decimal digits of `n`, most significant first, without leading zeros. */
  function NatToString(n: nat): (s: string)
    ensures |s| > 0
    ensures forall i :: 0 <= i < |s| ==> '0' <= s[i] <= '9'
  {
    if n < 10 then [DigitChar(n)] else NatToString(n / 10) + [DigitChar(n % 10)]
  }

  function IntToString(n: int): (s: string)
    ensures |s| > 0
  {
    if n < 0 then "-" + NatToString(-n) else NatToString(n)
  }

  /** Reads a string of decimal digits back as a number. */
  function ParseNat(s: string): nat
  {
    if s == [] then 0 else ParseNat(s[..|s| - 1]) * 10 + DigitValue(s[|s| - 1])
  }

  lemma {:induction false} ParseNatToString(n: nat)
    ensures ParseNat(NatToString(n)) == n
  {
    var s := NatToString(n);
    if n >= 10 {
      ParseNatToString(n / 10);
      assert s[..|s| - 1] == NatToString(n / 10);
    }
  }

  /** Decimal formatting never maps two numbers to the same text. */
  lemma NatToStringInjective(m: nat, n: nat)
    requires m != n
    ensures NatToString(m) != NatToString(n)
  {
    ParseNatToString(m);
    ParseNatToString(n);
  }

  // ---------------------------------------------------------------------------
  // Whitespace, as Rust's `char::is_whitespace` (the Unicode White_Space set).

  predicate IsWhitespace(c: char)
  {
    || ('\t' <= c <= '\r')
    || c == ' '
    || c == '\U{0085}'
    || c == '\U{00A0}'
    || c == '\U{1680}'
    || ('\U{2000}' <= c <= '\U{200A}')
    || c == '\U{2028}'
    || c == '\U{2029}'
    || c == '\U{202F}'
    || c == '\U{205F}'
    || c == '\U{3000}'
  }

  function TrimStart(s: string): (r: string)
    ensures |r| <= |s| && r == s[|s| - |r|..]
    ensures r == [] || !IsWhitespace(r[0])
    ensures forall i :: 0 <= i < |s| - |r| ==> IsWhitespace(s[i])
  {
    if s != [] && IsWhitespace(s[0]) then TrimStart(s[1..]) else s
  }

  function TrimEnd(s: string): (r: string)
    ensures |r| <= |s| && r == s[..|r|]
    ensures r == [] || !IsWhitespace(r[|r| - 1])
    ensures forall i :: |r| <= i < |s| ==> IsWhitespace(s[i])
  {
    if s != [] && IsWhitespace(s[|s| - 1]) then TrimEnd(s[..|s| - 1]) else s
  }

  /** `str::trim`: drop leading and trailing whitespace. */
  function Trim(s: string): string
  {
    TrimStart(TrimEnd(s))
  }

  /** A trimmed string is a slice of the original, and everything cut off on
      either side was whitespace. */
  lemma TrimIsCore(s: string)
    ensures exists i, j :: 0 <= i <= j <= |s| && Trim(s) == s[i..j]
                            && (forall k :: 0 <= k < i ==> IsWhitespace(s[k]))
                            && (forall k :: j <= k < |s| ==> IsWhitespace(s[k]))
  {
    var i, j := TrimBounds(s);
  }

  /** The slice `TrimIsCore` speaks of. */
  lemma TrimBounds(s: string) returns (i: int, j: int)
    ensures 0 <= i <= j <= |s| && Trim(s) == s[i..j]
    ensures forall k :: 0 <= k < i ==> IsWhitespace(s[k])
    ensures forall k :: j <= k < |s| ==> IsWhitespace(s[k])
  {
    var e := TrimEnd(s);
    var r := TrimStart(e);
    i, j := |e| - |r|, |e|;
    assert r == s[i..j] by {
      assert e == s[..j] && r == e[i..];
    }
    forall k | 0 <= k < i
      ensures IsWhitespace(s[k])
    {
      assert e[k] == s[k];
    }
  }

  /** `Trim(s)` neither starts nor ends with whitespace. */
  lemma TrimEnds(s: string)
    ensures Trim(s) == [] || (!IsWhitespace(Trim(s)[0]) && !IsWhitespace(Trim(s)[|Trim(s)| - 1]))
  {
    var e := TrimEnd(s);
    var r := TrimStart(e);
    assert r != [] ==> r[|r| - 1] == e[|e| - 1];
  }

  /** Trimming a string that has no surrounding whitespace leaves it alone. */
  lemma TrimOfTrimmed(s: string)
    requires s == [] || (!IsWhitespace(s[0]) && !IsWhitespace(s[|s| - 1]))
    ensures Trim(s) == s
  {
  }
}
