/** Models of the JavaScript built-ins the ledger code relies on:
    String.prototype.toLowerCase (ASCII letters only), String.prototype.trim,
    Array.prototype.find, BigInt.prototype.toString, and the counters its loops keep.
    A string that JavaScript treats as falsy (absent, null or empty) is the empty string. */
module Js {

  datatype Option<T> = None | Some(value: T)

  datatype Result<T> = Ok(value: T) | Err(message: string)

  /** What reading a JSON body gives: the parsed value, or the message of the error the
      read throws. For a route, `Unparsable` also stands for a `null` body, which parses
      but whose destructuring then throws a TypeError with its own message. */
  datatype Json<T> = Unparsable(message: string) | Parsed(value: T)

  /** `a || b` on strings. */
  function Or(a: string, b: string): string
  {
    if a != "" then a else b
  }

  // ---------------------------------------------------------------------------
  // Case folding

  predicate IsUpper(c: char) { 'A' <= c <= 'Z' }

  function LowerChar(c: char): char
  {
    if IsUpper(c) then (c as int + 32) as char else c
  }

  /** `s.toLowerCase()` on the ASCII range; other characters are kept. */
  function Lower(s: string): string
  {
    seq(|s|, i requires 0 <= i < |s| => LowerChar(s[i]))
  }

  /** Two characters are the same ASCII letter up to case, or simply equal. */
  predicate SameIgnoringCase(x: char, y: char)
  {
    x == y
    || ('A' <= x <= 'Z' && y as int == x as int + 32)
    || ('A' <= y <= 'Z' && x as int == y as int + 32)
  }

  /** Case-insensitive equality stated character by character, independently of Lower. */
  predicate EqualIgnoringCase(a: string, b: string)
  {
    |a| == |b| && forall i :: 0 <= i < |a| ==> SameIgnoringCase(a[i], b[i])
  }

  lemma LowerCharMeaning(x: char, y: char)
    ensures LowerChar(x) == LowerChar(y) <==> SameIgnoringCase(x, y)
  {
  }

  /** Comparing lowercased strings is exactly case-insensitive comparison. */
  lemma LowerEqualIff(a: string, b: string)
    ensures Lower(a) == Lower(b) <==> EqualIgnoringCase(a, b)
  {
    if Lower(a) == Lower(b) {
      assert |a| == |b|;
      forall i | 0 <= i < |a| ensures SameIgnoringCase(a[i], b[i]) {
        assert Lower(a)[i] == Lower(b)[i];
        LowerCharMeaning(a[i], b[i]);
      }
    }
    if EqualIgnoringCase(a, b) {
      forall i | 0 <= i < |a| ensures Lower(a)[i] == Lower(b)[i] {
        LowerCharMeaning(a[i], b[i]);
      }
    }
  }

  /** Lowercasing keeps the length, leaves no upper-case letter and is idempotent. */
  lemma LowerProperties(s: string)
    ensures |Lower(s)| == |s|
    ensures forall i :: 0 <= i < |s| ==> !IsUpper(Lower(s)[i])
    ensures EqualIgnoringCase(Lower(s), s)
    ensures Lower(Lower(s)) == Lower(s)
  {
  }

  // ---------------------------------------------------------------------------
  // String.prototype.trim: strips WhiteSpace and LineTerminator code points

  predicate IsJsWhitespace(c: char)
  {
    c == '\t' || c == '\n' || c == '\U{000B}' || c == '\U{000C}' || c == '\r' || c == ' '
    || c == '\U{00A0}' || c == '\U{1680}' || ('\U{2000}' <= c <= '\U{200A}')
    || c == '\U{2028}' || c == '\U{2029}' || c == '\U{202F}' || c == '\U{205F}'
    || c == '\U{3000}' || c == '\U{FEFF}'
  }

  function TrimStart(s: string): string
  {
    if |s| > 0 && IsJsWhitespace(s[0]) then TrimStart(s[1..]) else s
  }

  function TrimEnd(s: string): string
  {
    if |s| > 0 && IsJsWhitespace(s[|s| - 1]) then TrimEnd(s[..|s| - 1]) else s
  }

  function Trim(s: string): string
  {
    TrimEnd(TrimStart(s))
  }

  /** How many whitespace characters open `s`. */
  function Leading(s: string): (n: nat)
    ensures n <= |s|
  {
    if |s| > 0 && IsJsWhitespace(s[0]) then 1 + Leading(s[1..]) else 0
  }

  /** How many whitespace characters close `s`. */
  function Trailing(s: string): (n: nat)
    ensures n <= |s|
  {
    if |s| > 0 && IsJsWhitespace(s[|s| - 1]) then 1 + Trailing(s[..|s| - 1]) else 0
  }

  lemma {:induction false} TrimStartIsSuffix(s: string)
    ensures TrimStart(s) == s[Leading(s)..]
    ensures forall k :: 0 <= k < Leading(s) ==> IsJsWhitespace(s[k])
    ensures TrimStart(s) == [] || !IsJsWhitespace(TrimStart(s)[0])
  {
    if |s| > 0 && IsJsWhitespace(s[0]) {
      var r := s[1..];
      TrimStartIsSuffix(r);
      assert r[Leading(r)..] == s[Leading(s)..];
      forall k | 0 <= k < Leading(s) ensures IsJsWhitespace(s[k]) {
        if k > 0 { assert s[k] == r[k - 1]; }
      }
    }
  }

  lemma {:induction false} TrimEndIsPrefix(s: string)
    ensures TrimEnd(s) == s[..|s| - Trailing(s)]
    ensures forall k :: |s| - Trailing(s) <= k < |s| ==> IsJsWhitespace(s[k])
    ensures TrimEnd(s) == [] || !IsJsWhitespace(TrimEnd(s)[|TrimEnd(s)| - 1])
  {
    if |s| > 0 && IsJsWhitespace(s[|s| - 1]) {
      var p := s[..|s| - 1];
      TrimEndIsPrefix(p);
      assert p[..|p| - Trailing(p)] == s[..|s| - Trailing(s)];
      forall k | |s| - Trailing(s) <= k < |s| ensures IsJsWhitespace(s[k]) {
        if k < |s| - 1 { assert s[k] == p[k]; }
      }
    }
  }

  /** What `s.trim()` drops is whitespace: the leading run before `i` and the trailing
      run from `j` on. */
  lemma TrimDropsWhitespace(s: string, i: nat, j: nat)
    requires i == Leading(s) && j == i + |TrimStart(s)| - Trailing(TrimStart(s))
    ensures 0 <= i <= j <= |s| && Trim(s) == s[i..j]
    ensures forall k :: 0 <= k < i ==> IsJsWhitespace(s[k])
    ensures forall k :: j <= k < |s| ==> IsJsWhitespace(s[k])
  {
    TrimStartIsSuffix(s);
    var t := s[i..];
    TrimEndIsPrefix(t);
    assert t[..|t| - Trailing(t)] == s[i..j];
    forall k | j <= k < |s| ensures IsJsWhitespace(s[k]) {
      assert s[k] == t[k - i];
    }
  }

  /** What `s.trim()` keeps neither starts nor ends with whitespace. */
  lemma TrimEdges(s: string)
    ensures Trim(s) == [] || (!IsJsWhitespace(Trim(s)[0]) && !IsJsWhitespace(Trim(s)[|Trim(s)| - 1]))
  {
    var t := TrimStart(s);
    TrimStartIsSuffix(s);
    TrimEndIsPrefix(t);
    if Trim(s) != [] {
      assert Trim(s)[0] == t[0];
    }
  }

  /** `s.trim()` is the infix of `s` left after dropping whitespace at both ends:
      everything dropped is whitespace and what remains neither starts nor ends with it. */
  lemma TrimMeaning(s: string)
    ensures exists i, j :: 0 <= i <= j <= |s| && Trim(s) == s[i..j]
                           && (forall k :: 0 <= k < i ==> IsJsWhitespace(s[k]))
                           && (forall k :: j <= k < |s| ==> IsJsWhitespace(s[k]))
    ensures Trim(s) == [] || (!IsJsWhitespace(Trim(s)[0]) && !IsJsWhitespace(Trim(s)[|Trim(s)| - 1]))
  {
    var i := Leading(s);
    var j := i + |TrimStart(s)| - Trailing(TrimStart(s));
    TrimStartIsSuffix(s);
    TrimDropsWhitespace(s, i, j);
    TrimEdges(s);
  }

  /** A string with no whitespace at either end is its own trim. */
  lemma TrimNoop(s: string)
    requires s == [] || (!IsJsWhitespace(s[0]) && !IsJsWhitespace(s[|s| - 1]))
    ensures Trim(s) == s
  {
  }

  lemma JoinAssoc<T>(a: seq<T>, b: seq<T>, c: seq<T>)
    ensures a + b + c == a + (b + c)
  {
  }

  lemma PrefixSnoc<T>(s: seq<T>, i: nat)
    requires i < |s|
    ensures s[..i + 1] == s[..i] + [s[i]]
  {
  }

  // ---------------------------------------------------------------------------
  // Array.prototype.find, giving the position of the element it returns

  function FindIndex<T>(s: seq<T>, p: T -> bool): (r: Option<nat>)
    ensures r.Some? ==> r.value < |s| && p(s[r.value])
    ensures r.Some? ==> forall j :: 0 <= j < r.value ==> !p(s[j])
    ensures r.None? <==> forall j :: 0 <= j < |s| ==> !p(s[j])
  {
    if |s| == 0 then None
    else if p(s[0]) then Some(0)
    else match FindIndex(s[1..], p)
         case None => None
         case Some(k) => Some(k + 1)
  }

  // ---------------------------------------------------------------------------
  // BigInt.prototype.toString() for the non-negative integers of the chain events

  function DigitChar(d: nat): char
    requires d < 10
  {
    "0123456789"[d]
  }

  function Decimal(n: nat): string
  {
    if n < 10 then [DigitChar(n)] else Decimal(n / 10) + [DigitChar(n % 10)]
  }

  /** Reference reading of a decimal numeral: its digits, most significant first. */
  function ParseDecimal(s: string): Option<nat>
  {
    if |s| == 0 then None
    else if !('0' <= s[|s| - 1] <= '9') then None
    else if |s| == 1 then Some(s[0] as int - '0' as int)
    else match ParseDecimal(s[..|s| - 1])
         case None => None
         case Some(v) => Some(10 * v + (s[|s| - 1] as int - '0' as int))
  }

  /** The decimal rendering is a canonical numeral (no leading zero) that reads back as n. */
  lemma {:induction false} DecimalRoundTrip(n: nat)
    ensures ParseDecimal(Decimal(n)) == Some(n)
    ensures |Decimal(n)| >= 1 && (Decimal(n)[0] == '0' ==> n == 0)
  {
    if n >= 10 {
      DecimalRoundTrip(n / 10);
      var s := Decimal(n);
      assert s[..|s| - 1] == Decimal(n / 10);
      assert s[0] == Decimal(n / 10)[0];
    }
  }

  // ---------------------------------------------------------------------------
  // A loop counter that goes up once for each element satisfying `p`

  function Count<T>(s: seq<T>, p: T -> bool): (r: nat)
    ensures r <= |s|
    ensures r == |s| <==> forall i :: 0 <= i < |s| ==> p(s[i])
    ensures r == 0 <==> forall i :: 0 <= i < |s| ==> !p(s[i])
  {
    if s == [] then 0
    else Count(s[..|s| - 1], p) + (if p(s[|s| - 1]) then 1 else 0)
  }

  lemma CountSnoc<T>(s: seq<T>, x: T, p: T -> bool)
    ensures Count(s + [x], p) == Count(s, p) + (if p(x) then 1 else 0)
  {
    assert (s + [x])[..|s|] == s;
  }

  /** Counting a weaker condition never gives less. */
  lemma {:induction false} CountMonotone<T>(s: seq<T>, p: T -> bool, q: T -> bool)
    requires forall i :: 0 <= i < |s| && p(s[i]) ==> q(s[i])
    ensures Count(s, p) <= Count(s, q)
  {
    if s != [] {
      var prefix := s[..|s| - 1];
      assert forall i :: 0 <= i < |prefix| ==> prefix[i] == s[i];
      CountMonotone(prefix, p, q);
    }
  }
}
