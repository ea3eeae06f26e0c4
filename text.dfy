/**
 * The JavaScript string operations the handlers rely on:
 * `String.prototype.trim`, `split(',')`, `Array.prototype.join`,
 * `startsWith`, and `parseInt(x, 10)`.
 */
module Text {
  import opened Base

  /** ECMAScript WhiteSpace and LineTerminator code points (what `trim` strips). */
  predicate IsWhitespace(c: char) {
    c == '\t' || c == '\n' || c == '\U{B}' || c == '\U{C}' || c == '\r' || c == ' '
    || c == '\U{A0}' || c == '\U{1680}' || ('\U{2000}' <= c <= '\U{200A}')
    || c == '\U{2028}' || c == '\U{2029}' || c == '\U{202F}' || c == '\U{205F}'
    || c == '\U{3000}' || c == '\U{FEFF}'
  }

  predicate AllWhitespace(s: string) {
    forall i :: 0 <= i < |s| ==> IsWhitespace(s[i])
  }

  /** No whitespace at either end. */
  predicate Trimmed(s: string) {
    |s| == 0 || (!IsWhitespace(s[0]) && !IsWhitespace(s[|s| - 1]))
  }

  /** JavaScript truthiness of a string that may be undefined. */
  predicate Truthy(s: Option<string>) {
    s.Some? && s.value != ""
  }

  /** `String(x)` for a form field that may be missing. */
  function ToJsString(s: Option<string>): string {
    if s.Some? then s.value else "undefined"
  }

  /** How many whitespace characters `s` starts with. */
  function LeadingBlanks(s: string): (n: nat)
    ensures n <= |s|
  {
    if |s| > 0 && IsWhitespace(s[0]) then 1 + LeadingBlanks(s[1..]) else 0
  }

  /** How many whitespace characters `s` ends with. */
  function TrailingBlanks(s: string): (n: nat)
    ensures n <= |s|
  {
    if |s| > 0 && IsWhitespace(s[|s| - 1]) then 1 + TrailingBlanks(s[..|s| - 1]) else 0
  }

  /** `LeadingBlanks` counts a blank run that stops at the first non-blank character. */
  lemma {:induction false} LeadingBlanksSpec(s: string)
    ensures AllWhitespace(s[..LeadingBlanks(s)])
    ensures LeadingBlanks(s) == |s| || !IsWhitespace(s[LeadingBlanks(s)])
  {
    if |s| > 0 && IsWhitespace(s[0]) {
      LeadingBlanksSpec(s[1..]);
      var n := LeadingBlanks(s[1..]);
      assert s[..n + 1] == [s[0]] + s[1..][..n];
    }
  }

  /** `TrailingBlanks` counts a blank run that stops at the last non-blank character. */
  lemma {:induction false} TrailingBlanksSpec(s: string)
    ensures AllWhitespace(s[|s| - TrailingBlanks(s)..])
    ensures TrailingBlanks(s) == |s| || !IsWhitespace(s[|s| - TrailingBlanks(s) - 1])
  {
    if |s| > 0 && IsWhitespace(s[|s| - 1]) {
      var t := s[..|s| - 1];
      TrailingBlanksSpec(t);
      var n := TrailingBlanks(t);
      assert s[|s| - (n + 1)..] == t[|t| - n..] + [s[|s| - 1]];
    }
  }

  /** `s.trimStart()`: leading whitespace removed. */
  function TrimStart(s: string): string {
    s[LeadingBlanks(s)..]
  }

  /** `s.trim()`: whitespace removed at both ends. */
  function Trim(s: string): string {
    var t := TrimStart(s);
    t[..|t| - TrailingBlanks(t)]
  }

  /** `(x || '').trim()`, or `String(x || '').trim()`, for a form field that may be missing. */
  function TrimmedOrEmpty(x: Option<string>): string {
    Trim(if x.Some? then x.value else "")
  }

  /**
   * The trim of `s` is the infix of `s` left between a blank prefix and a blank
   * suffix.
   */
  lemma TrimIsInfix(s: string)
    ensures var r := Trim(s);
      exists i :: 0 <= i <= |s| - |r| && r == s[i..i + |r|]
                  && AllWhitespace(s[..i]) && AllWhitespace(s[i + |r|..])
  {
    var i := LeadingBlanks(s);
    var t := s[i..];
    var j := |t| - TrailingBlanks(t);
    var r := Trim(s);
    LeadingBlanksSpec(s);
    TrailingBlanksSpec(t);
    assert r == t[..j];
    assert r == s[i..i + j];
    assert s[i + j..] == t[j..];
    assert 0 <= i <= |s| - |r| && r == s[i..i + |r|] && AllWhitespace(s[..i]) && AllWhitespace(s[i + |r|..]);
  }

  /** What `trim` returns has no whitespace at either end. */
  lemma TrimIsTrimmed(s: string)
    ensures Trimmed(Trim(s))
  {
    var i := LeadingBlanks(s);
    var t := s[i..];
    var j := |t| - TrailingBlanks(t);
    var r := Trim(s);
    assert r == t[..j];
    if j > 0 {
      LeadingBlanksSpec(s);
      TrailingBlanksSpec(t);
      assert r[0] == t[0] == s[i];
      assert r[j - 1] == t[j - 1];
    }
  }

  /** Trimming is idempotent: a trimmed string is its own trim. */
  lemma TrimFixesTrimmed(s: string)
    requires Trimmed(s)
    ensures Trim(s) == s
  {
    assert LeadingBlanks(s) == 0;
    assert s[0..] == s;
  }

  /** A string trims to "" exactly when it is all whitespace. */
  lemma TrimEmptyIff(s: string)
    ensures Trim(s) == "" <==> AllWhitespace(s)
  {
    TrimIsInfix(s);
    if AllWhitespace(s) {
      LeadingBlanksAllBlank(s);
    }
  }

  /** An all-blank string is one leading run of blanks. */
  lemma {:induction false} LeadingBlanksAllBlank(s: string)
    requires AllWhitespace(s)
    ensures LeadingBlanks(s) == |s|
  {
    if |s| > 0 {
      assert AllWhitespace(s[1..]) by {
        forall k | 0 <= k < |s[1..]| ensures IsWhitespace(s[1..][k]) {
          assert s[1..][k] == s[k + 1];
        }
      }
      LeadingBlanksAllBlank(s[1..]);
    }
  }

  /** `parts.join(sep)`. */
  function Join(parts: seq<string>, sep: string): string {
    if |parts| == 0 then ""
    else if |parts| == 1 then parts[0]
    else parts[0] + sep + Join(parts[1..], sep)
  }

  /** `s.split(d)` for a one-character separator: at least one piece, none holding `d`. */
  function Split(s: string, d: char): (parts: seq<string>)
    ensures |parts| >= 1
    ensures forall k :: 0 <= k < |parts| ==> d !in parts[k]
    decreases |s|
  {
    if |s| == 0 then [""]
    else
      var rest := Split(s[1..], d);
      if s[0] == d then [""] + rest
      else [[s[0]] + rest[0]] + rest[1..]
  }

  /** Joining the pieces of a split with the separator gives back the string. */
  lemma {:induction false} JoinSplit(s: string, d: char)
    ensures Join(Split(s, d), [d]) == s
    decreases |s|
  {
    if |s| > 0 {
      var rest := Split(s[1..], d);
      JoinSplit(s[1..], d);
      if s[0] == d {
        assert Split(s, d) == [""] + rest;
      } else {
        var parts := Split(s, d);
        assert parts == [[s[0]] + rest[0]] + rest[1..];
        if |rest| == 1 {
          assert parts == [[s[0]] + rest[0]];
        } else {
          assert parts[1..] == rest[1..];
          assert Join(rest, [d]) == rest[0] + [d] + Join(rest[1..], [d]);
        }
      }
    }
  }

  /** Splitting a join of separator-free pieces gives back the pieces. */
  lemma {:induction false} SplitJoin(parts: seq<string>, d: char)
    requires |parts| >= 1
    requires forall k :: 0 <= k < |parts| ==> d !in parts[k]
    ensures Split(Join(parts, [d]), d) == parts
    decreases |parts|, |parts[0]|
  {
    if |parts[0]| == 0 {
      if |parts| > 1 {
        var tail := Join(parts[1..], [d]);
        assert Join(parts, [d]) == [d] + tail;
        SplitAtSeparator(tail, d);
        SplitJoin(parts[1..], d);
        assert parts == [""] + parts[1..];
      }
    } else {
      var p0 := parts[0];
      var shorter := [p0[1..]] + parts[1..];
      assert shorter[1..] == parts[1..];
      forall k | 0 <= k < |shorter| ensures d !in shorter[k] {
        if k == 0 {
          assert forall c :: c in p0[1..] ==> c in p0;
        }
      }
      SplitJoin(shorter, d);
      var rest := Join(shorter, [d]);
      if |parts| == 1 {
        assert Join(parts, [d]) == p0 && rest == p0[1..];
      } else {
        assert Join(parts, [d]) == p0 + [d] + Join(parts[1..], [d]);
        assert rest == p0[1..] + [d] + Join(parts[1..], [d]);
      }
      assert Join(parts, [d]) == [p0[0]] + rest;
      assert p0[0] != d by { assert p0[0] in p0; }
      SplitAtOther(p0[0], rest, d);
      assert [p0[0]] + p0[1..] == p0;
      assert [[p0[0]] + p0[1..]] + parts[1..] == parts;
    }
  }

  /** A leading separator closes an empty first piece. */
  lemma SplitAtSeparator(s: string, d: char)
    ensures Split([d] + s, d) == [""] + Split(s, d)
  {
    assert ([d] + s)[1..] == s;
  }

  /** Any other leading character starts the first piece. */
  lemma SplitAtOther(c: char, s: string, d: char)
    requires c != d
    ensures Split([c] + s, d) == [[c] + Split(s, d)[0]] + Split(s, d)[1..]
  {
    assert ([c] + s)[1..] == s;
  }

  /** `s.startsWith(prefix)`. */
  predicate StartsWith(s: string, prefix: string) {
    |prefix| <= |s| && s[..|prefix|] == prefix
  }

  predicate IsDigit(c: char) {
    '0' <= c <= '9'
  }

  predicate AllDigits(s: string) {
    forall i :: 0 <= i < |s| ==> IsDigit(s[i])
  }

  /** The decimal value of a run of digits, most significant first. */
  function DigitsValue(ds: string): nat
    requires AllDigits(ds)
  {
    if |ds| == 0 then 0
    else DigitsValue(ds[..|ds| - 1]) * 10 + ((ds[|ds| - 1] as int) - ('0' as int))
  }

  /** The longest prefix of `s` made of decimal digits. */
  function LeadingDigits(s: string): (r: string)
    ensures |r| <= |s| && r == s[..|r|] && AllDigits(r)
    ensures |r| == |s| || !IsDigit(s[|r|])
  {
    if |s| > 0 && IsDigit(s[0]) then [s[0]] + LeadingDigits(s[1..]) else ""
  }

  /**
   * `parseInt(s, 10)`: skip leading whitespace, take an optional sign, then the
   * longest run of decimal digits; no digits gives NaN (here `None`).
   */
  function ParseInt(s: string): Option<int> {
    var t := TrimStart(s);
    var signed := |t| > 0 && (t[0] == '-' || t[0] == '+');
    var body := if signed then t[1..] else t;
    var ds := LeadingDigits(body);
    var v: int := if |ds| == 0 then 0 else DigitsValue(ds);
    if |ds| == 0 then None
    else if signed && t[0] == '-' then Some(-v)
    else Some(v)
  }

  /** Only a leading run of digits matters: whatever follows it is ignored. */
  lemma {:induction false} ParseIntIgnoresSuffix(ds: string, rest: string)
    requires |ds| > 0 && AllDigits(ds)
    requires |rest| == 0 || !IsDigit(rest[0])
    ensures ParseInt(ds + rest) == Some(DigitsValue(ds))
  {
    var s := ds + rest;
    assert !IsWhitespace(s[0]) && s[0] != '-' && s[0] != '+' by { assert s[0] == ds[0]; }
    assert TrimStart(s) == s;
    LeadingDigitsOfDigits(ds, rest);
  }

  lemma {:induction false} LeadingDigitsOfDigits(ds: string, rest: string)
    requires AllDigits(ds)
    requires |rest| == 0 || !IsDigit(rest[0])
    ensures LeadingDigits(ds + rest) == ds
  {
    if |ds| > 0 {
      assert (ds + rest)[1..] == ds[1..] + rest;
      LeadingDigitsOfDigits(ds[1..], rest);
      assert [ds[0]] + ds[1..] == ds;
    } else {
      assert ds + rest == rest;
    }
  }

  /** Input whose first non-blank character is not a sign or a digit parses to NaN. */
  lemma ParseIntRejectsNonNumeric(s: string)
    requires var t := TrimStart(s); |t| == 0 || (!IsDigit(t[0]) && t[0] != '-' && t[0] != '+')
    ensures ParseInt(s) == None
  {
  }
}
