/**
 * Values shared by the backend and the frontend model: optional values,
 * JavaScript string operations (trim, case mapping, substring search,
 * split-before-first) and order-preserving filters over sequences.
 */
module Common {

  datatype Option<T> = None | Some(value: T)

  datatype Result<T, E> = Ok(value: T) | Err(error: E)

  /** Why a Mongoose `create` or `save` fails: schema validation, or a
      unique index (error code 11000). */
  datatype DbError = ValidationError | DuplicateKeyError

  /** A JavaScript Date: a millisecond timestamp, or the Invalid Date that
      `new Date(x)` yields for input it cannot parse. */
  datatype JsDate = ValidDate(ms: int) | InvalidDate

  /** The JavaScript values a request body field can hold, as far as the
      guards inspect them with `typeof`, truthiness and `String(...)`;
      numbers are integers. */
  datatype JsValue = JsString(s: string) | JsNumber(n: int) | JsBool(b: bool) | JsNull | JsUndefined | JsObject

  /** `!!v` */
  predicate JsTruthy(v: JsValue) {
    match v
    case JsString(s) => s != ""
    case JsNumber(n) => n != 0
    case JsBool(b) => b
    case JsObject => true
    case _ => false
  }

  /** Mongo ObjectIds and user ids, as the strings the code compares and
      concatenates into room names, cache keys and job ids. */
  type Id = string

  /** A JavaScript string value that is truthy: present and not "". */
  predicate Truthy(s: Option<string>) {
    s.Some? && s.value != ""
  }

  // ---------------------------------------------------------------------
  // Characters

  /** The characters matched by `\s` and removed by String.prototype.trim. */
  predicate IsSpace(c: char) {
    c == ' ' || c == '\t' || c == '\n' || c == '\U{B}' || c == '\U{C}' || c == '\r'
    || c == '\U{A0}' || c == '\U{1680}' || ('\U{2000}' <= c <= '\U{200A}')
    || c == '\U{2028}' || c == '\U{2029}' || c == '\U{202F}' || c == '\U{205F}'
    || c == '\U{3000}' || c == '\U{FEFF}'
  }

  predicate IsDigit(c: char) { '0' <= c <= '9' }

  predicate IsLowerAscii(c: char) { 'a' <= c <= 'z' }

  predicate IsUpperAscii(c: char) { 'A' <= c <= 'Z' }

  /** The regular-expression class `\w`: [A-Za-z0-9_]. */
  predicate IsWordChar(c: char) {
    IsLowerAscii(c) || IsUpperAscii(c) || IsDigit(c) || c == '_'
  }

  function LowerChar(c: char): char {
    if IsUpperAscii(c) then (c as int + 32) as char else c
  }

  function UpperChar(c: char): char {
    if IsLowerAscii(c) then (c as int - 32) as char else c
  }

  /** String.prototype.length: UTF-16 code units, so a character outside
      the Basic Multilingual Plane counts twice. */
  function JsLength(s: string): (n: nat)
    ensures n >= |s|
    ensures (forall i :: 0 <= i < |s| ==> s[i] as int < 0x1_0000) ==> n == |s|
  {
    if s == [] then 0 else (if s[0] as int < 0x1_0000 then 1 else 2) + JsLength(s[1..])
  }

  // ---------------------------------------------------------------------
  // Case mapping (ASCII letters; other characters are kept)

  function ToLower(s: string): string {
    seq(|s|, i requires 0 <= i < |s| => LowerChar(s[i]))
  }

  lemma ToLowerIdempotent(s: string)
    ensures ToLower(ToLower(s)) == ToLower(s)
  {
  }

  lemma ToLowerAppend(a: string, b: string)
    ensures ToLower(a + b) == ToLower(a) + ToLower(b)
  {
  }

  // ---------------------------------------------------------------------
  // Trimming

  /** String.prototype.trimStart: the suffix left after dropping leading whitespace. */
  function TrimStart(s: string): (r: string)
    ensures |r| <= |s| && r == s[|s| - |r|..]
    ensures r != [] ==> !IsSpace(r[0])
    ensures forall i :: 0 <= i < |s| - |r| ==> IsSpace(s[i])
  {
    if s != [] && IsSpace(s[0]) then TrimStart(s[1..]) else s
  }

  /** String.prototype.trimEnd: the prefix left after dropping trailing whitespace. */
  function TrimEnd(s: string): (r: string)
    ensures |r| <= |s| && r == s[..|r|]
    ensures r != [] ==> !IsSpace(r[|r| - 1])
    ensures forall i :: |r| <= i < |s| ==> IsSpace(s[i])
  {
    if s != [] && IsSpace(s[|s| - 1]) then TrimEnd(s[..|s| - 1]) else s
  }

  /** String.prototype.trim. */
  function Trim(s: string): string {
    TrimEnd(TrimStart(s))
  }

  /** Trim leaves no whitespace at either end, and what it keeps is a
      contiguous piece of the input with only whitespace around it. */
  lemma TrimShape(s: string)
    ensures var r := Trim(s);
      && (r != [] ==> !IsSpace(r[0]) && !IsSpace(r[|r| - 1]))
      && exists a :: 0 <= a <= |s| - |r| && OccursAt(s, r, a)
           && (forall i :: 0 <= i < a ==> IsSpace(s[i]))
           && (forall i :: a + |r| <= i < |s| ==> IsSpace(s[i]))
  {
    TrimPiece(s);
    TrimEnds(s);
    var a := |s| - |TrimStart(s)|;
    assert OccursAt(s, Trim(s), a);
  }

  /** What trim keeps starts where trimStart stopped, with only whitespace around it. */
  lemma TrimPiece(s: string)
    ensures var a, r := |s| - |TrimStart(s)|, Trim(s);
            a + |r| <= |s| && s[a..a + |r|] == r
            && (forall i :: 0 <= i < a ==> IsSpace(s[i]))
            && (forall i :: a + |r| <= i < |s| ==> IsSpace(s[i]))
  {
    TrimPieceSlice(s);
    TrimPieceAfter(s);
  }

  lemma TrimPieceSlice(s: string)
    ensures var a, r := |s| - |TrimStart(s)|, Trim(s);
            a + |r| <= |s| && s[a..a + |r|] == r
  {
    var t := TrimStart(s);
    var a := |s| - |t|;
    TrimEndPiece(t);
    SliceOfSuffix(s, a, |TrimEnd(t)|);
  }

  lemma TrimPieceAfter(s: string)
    ensures var a, r := |s| - |TrimStart(s)|, Trim(s);
            a + |r| <= |s| && forall i :: a + |r| <= i < |s| ==> IsSpace(s[i])
  {
    var t := TrimStart(s);
    TrimEndPiece(t);
    TrailingSpaces(s, |s| - |t|, |TrimEnd(t)|);
  }

  /** trimEnd keeps a prefix and drops only whitespace. */
  lemma TrimEndPiece(t: string)
    ensures var r := TrimEnd(t);
            |r| <= |t| && t[..|r|] == r && forall i :: |r| <= i < |t| ==> IsSpace(t[i])
  {
  }

  lemma SliceOfSuffix(s: string, a: nat, n: nat)
    requires a <= |s| && n <= |s| - a
    ensures s[a..a + n] == s[a..][..n]
  {
  }

  /** The whitespace trimEnd drops from the suffix s[a..] is whitespace of s. */
  lemma TrailingSpaces(s: string, a: nat, n: nat)
    requires a <= |s| && n <= |s| - a
    requires forall i :: n <= i < |s| - a ==> IsSpace(s[a..][i])
    ensures forall i :: a + n <= i < |s| ==> IsSpace(s[i])
  {
    forall i | a + n <= i < |s| ensures IsSpace(s[i]) {
      assert s[i] == s[a..][i - a];
    }
  }

  /** Trim leaves no whitespace at either end. */
  lemma TrimEnds(s: string)
    ensures var r := Trim(s);
            r != [] ==> !IsSpace(r[0]) && !IsSpace(r[|r| - 1])
  {
    var t := TrimStart(s);
    var r := TrimEnd(t);
    if r != [] {
      assert r[0] == t[0];
    }
  }

  /** A string trims to "" exactly when every character is whitespace. */
  lemma TrimEmptyIff(s: string)
    ensures Trim(s) == [] <==> forall i :: 0 <= i < |s| ==> IsSpace(s[i])
  {
    var t := TrimStart(s);
    if Trim(s) == [] {
      assert t == [];
    }
  }

  /** Trimming does not change a string without whitespace at its ends. */
  lemma TrimIdempotent(s: string)
    ensures Trim(Trim(s)) == Trim(s)
  {
    var r := Trim(s);
    TrimShape(s);
    assert TrimStart(r) == r;
  }

  // ---------------------------------------------------------------------
  // Prefixes, suffixes, substrings

  predicate StartsWith(s: string, prefix: string) {
    |prefix| <= |s| && s[..|prefix|] == prefix
  }

  predicate EndsWith(s: string, suffix: string) {
    |suffix| <= |s| && s[|s| - |suffix|..] == suffix
  }

  /** `q` occurs in `s` starting at index `i`. */
  predicate OccursAt(s: string, q: string, i: int) {
    0 <= i && i + |q| <= |s| && s[i..i + |q|] == q
  }

  /** String.prototype.includes. */
  predicate Includes(s: string, q: string) {
    exists i :: 0 <= i <= |s| && OccursAt(s, q, i)
  }

  /** The index of the first occurrence of `q` in `s` at or after `from`. */
  function IndexOfFrom(s: string, q: string, from: nat): (r: Option<nat>)
    requires from <= |s|
    ensures r.Some? ==> from <= r.value && OccursAt(s, q, r.value)
    ensures forall j :: from <= j && (r.None? || j < r.value) ==> !OccursAt(s, q, j)
    decreases |s| - from
  {
    if from + |q| > |s| then None
    else if s[from..from + |q|] == q then Some(from)
    else IndexOfFrom(s, q, from + 1)
  }

  /** String.prototype.indexOf, with None for -1. */
  function IndexOf(s: string, q: string): (r: Option<nat>)
    ensures r.Some? ==> OccursAt(s, q, r.value)
    ensures r.None? <==> !Includes(s, q)
    ensures forall j :: 0 <= j && (r.None? || j < r.value) ==> !OccursAt(s, q, j)
  {
    IndexOfFrom(s, q, 0)
  }

  /** `s.split(sep)[0]`: the text before the first occurrence of a
      non-empty separator, or all of `s` when it does not occur. */
  function BeforeFirst(s: string, sep: string): (r: string)
    requires sep != []
    ensures StartsWith(s, r)
    ensures !Includes(r, sep)
    ensures r == s <==> !Includes(s, sep)
  {
    match IndexOf(s, sep)
    case None => s
    case Some(i) =>
      NoEarlierOccurrence(s, sep, i);
      assert OccursAt(s, sep, i) && |s[..i]| < |s|;
      s[..i]
  }

  /** Occurrences inside a prefix are occurrences in the whole string. */
  lemma NoEarlierOccurrence(s: string, sep: string, i: nat)
    requires sep != [] && i <= |s|
    requires forall j :: 0 <= j < i ==> !OccursAt(s, sep, j)
    ensures !Includes(s[..i], sep)
  {
    forall j | 0 <= j && j + |sep| <= i
      ensures !OccursAt(s[..i], sep, j)
    {
      assert j < i && !OccursAt(s, sep, j);
      assert s[..i][j..j + |sep|] == s[j..j + |sep|];
    }
  }

  // ---------------------------------------------------------------------
  // Decimal rendering of integers (JavaScript String(n) for integers)

  function DigitChar(d: nat): (c: char)
    requires d < 10
    ensures IsDigit(c)
  {
    ('0' as int + d) as char
  }

  /** String(n) for a non-negative integer: no sign, no leading zero. */
  function NatToString(n: nat): (r: string)
    ensures |r| >= 1
    ensures forall i :: 0 <= i < |r| ==> IsDigit(r[i])
    ensures n >= 10 ==> r[0] != '0'
  {
    if n < 10 then [DigitChar(n)] else NatToString(n / 10) + [DigitChar(n % 10)]
  }

  /** String(n) for an integer. */
  function IntToString(n: int): string {
    if n < 0 then "-" + NatToString(-n) else NatToString(n)
  }

  /** Math.ceil(a / b): the least integer not below the exact quotient. */
  function CeilDiv(a: int, b: int): (r: int)
    requires b != 0
    ensures b > 0 ==> (r - 1) * b < a <= r * b
    ensures b < 0 ==> r * b <= a < (r - 1) * b
  {
    if b > 0 then -((-a) / b) else -(a / (-b))
  }

  /** String(v) */
  function JsToString(v: JsValue): string {
    match v
    case JsString(s) => s
    case JsNumber(n) => IntToString(n)
    case JsBool(b) => if b then "true" else "false"
    case JsNull => "null"
    case JsUndefined => "undefined"
    case JsObject => "[object Object]"
  }

  function Pow10(k: nat): (r: nat)
    ensures r >= 1
  {
    if k == 0 then 1 else 10 * Pow10(k - 1)
  }

  /** A natural number has at most k digits exactly when it is below 10^k. */
  lemma {:induction false} DigitCountBound(n: nat, k: nat)
    requires k >= 1
    ensures |NatToString(n)| <= k <==> n < Pow10(k)
  {
    if n < 10 {
      if k > 1 { PowMonotone(1, k); }
    } else if k == 1 {
      assert |NatToString(n / 10)| >= 1;
    } else {
      DigitCountBound(n / 10, k - 1);
    }
  }

  lemma {:induction false} PowMonotone(j: nat, k: nat)
    requires j <= k
    ensures Pow10(j) <= Pow10(k)
    decreases k
  {
    if j < k { PowMonotone(j, k - 1); }
  }

  /** String(n) has exactly six characters, all digits, exactly when
      100000 <= n <= 999999. */
  lemma SixDigits(n: int)
    ensures (|IntToString(n)| == 6 && forall i :: 0 <= i < 6 ==> IsDigit(IntToString(n)[i]))
            <==> 100000 <= n <= 999999
  {
    if n < 0 {
      assert IntToString(n)[0] == '-';
    } else {
      DigitCountBound(n, 6);
      DigitCountBound(n, 5);
      assert Pow10(5) == 100000 && Pow10(6) == 1000000;
    }
  }

  // ---------------------------------------------------------------------
  // Order-preserving filter and counting

  /** Array.prototype.filter. */
  function Filter<T>(s: seq<T>, p: T -> bool): (r: seq<T>)
    ensures |r| <= |s|
    ensures forall i :: 0 <= i < |r| ==> r[i] in s && p(r[i])
    ensures forall i :: 0 <= i < |s| && p(s[i]) ==> s[i] in r
  {
    if s == [] then [] else (if p(s[0]) then [s[0]] else []) + Filter(s[1..], p)
  }

  /** Array.prototype.reverse on a copy. */
  function Reverse<T>(s: seq<T>): (r: seq<T>)
    ensures |r| == |s|
    ensures forall i :: 0 <= i < |s| ==> r[i] == s[|s| - 1 - i]
  {
    seq(|s|, i requires 0 <= i < |s| => s[|s| - 1 - i])
  }

  /** The number of elements satisfying `p`. */
  function Count<T>(s: seq<T>, p: T -> bool): nat {
    |Filter(s, p)|
  }

  /** `sub` is an order-preserving subsequence of `s` (greedy matching). */
  ghost predicate SubsequenceOf<T>(sub: seq<T>, s: seq<T>)
    decreases |s|
  {
    if sub == [] then true
    else if s == [] then false
    else if sub[0] == s[0] then SubsequenceOf(sub[1..], s[1..])
    else SubsequenceOf(sub, s[1..])
  }

  lemma {:induction false} SubsequenceOfSelf<T>(s: seq<T>)
    ensures SubsequenceOf(s, s)
  {
    if s != [] {
      SubsequenceOfSelf(s[1..]);
    }
  }

  /** A filter keeps the elements it keeps in their original order. */
  lemma {:induction false} FilterIsSubsequence<T>(s: seq<T>, p: T -> bool)
    ensures SubsequenceOf(Filter(s, p), s)
  {
    if s != [] {
      FilterIsSubsequence(s[1..], p);
      var rest := Filter(s[1..], p);
      if p(s[0]) {
        assert Filter(s, p) == [s[0]] + rest;
        assert (Filter(s, p))[1..] == rest;
      } else {
        assert Filter(s, p) == rest;
        SkipHead(rest, s);
      }
    }
  }

  /** A subsequence of the tail of `s` is a subsequence of `s`. */
  lemma {:induction false} SkipHead<T>(sub: seq<T>, s: seq<T>)
    requires s != [] && SubsequenceOf(sub, s[1..])
    ensures SubsequenceOf(sub, s)
    decreases |s|, 0
  {
    if sub != [] && sub[0] == s[0] {
      SubsequenceTail(sub, s[1..]);
    }
  }

  /** If `sub` is a subsequence of `s`, so is its tail. */
  lemma {:induction false} SubsequenceTail<T>(sub: seq<T>, s: seq<T>)
    requires sub != [] && SubsequenceOf(sub, s)
    ensures SubsequenceOf(sub[1..], s)
    decreases |s|, 1
  {
    if sub[0] == s[0] {
      SkipHead(sub[1..], s);
    } else {
      SubsequenceTail(sub, s[1..]);
      SkipHead(sub[1..], s);
    }
  }

  lemma {:induction false} FilterAll<T>(s: seq<T>, p: T -> bool)
    requires forall x :: x in s ==> p(x)
    ensures Filter(s, p) == s
  {
    if s != [] {
      FilterAll(s[1..], p);
    }
  }

  lemma {:induction false} FilterNone<T>(s: seq<T>, p: T -> bool)
    requires forall x :: x in s ==> !p(x)
    ensures Filter(s, p) == []
  {
    if s != [] {
      FilterNone(s[1..], p);
    }
  }

  lemma {:induction false} FilterAppend<T>(a: seq<T>, b: seq<T>, p: T -> bool)
    ensures Filter(a + b, p) == Filter(a, p) + Filter(b, p)
  {
    if a == [] {
      assert a + b == b;
    } else {
      assert (a + b)[1..] == a[1..] + b;
      FilterAppend(a[1..], b, p);
    }
  }

  /** A relation that holds between every earlier and later element still
      holds after filtering. */
  lemma {:induction false} FilterPairwise<T>(s: seq<T>, p: T -> bool, rel: (T, T) -> bool)
    requires forall i, j :: 0 <= i < j < |s| ==> rel(s[i], s[j])
    ensures forall i, j :: 0 <= i < j < |Filter(s, p)| ==> rel(Filter(s, p)[i], Filter(s, p)[j])
  {
    if s != [] {
      FilterPairwise(s[1..], p, rel);
      var rest := Filter(s[1..], p);
      forall x | x in rest
        ensures rel(s[0], x)
      {
        var k :| 0 <= k < |s[1..]| && s[1..][k] == x;
        assert s[k + 1] == x;
      }
      var r := Filter(s, p);
      if p(s[0]) {
        assert r == [s[0]] + rest;
        forall i, j | 0 <= i < j < |r| ensures rel(r[i], r[j]) {
          if i > 0 {
            assert r[i] == rest[i - 1] && r[j] == rest[j - 1];
            assert rel(rest[i - 1], rest[j - 1]);
          } else {
            assert r[0] == s[0] && r[j] == rest[j - 1] && rest[j - 1] in rest;
            assert rel(s[0], rest[j - 1]);
          }
        }
      } else {
        assert r == rest;
      }
    }
  }

  /** Elements failing `p` plus elements passing it make up the whole. */
  lemma {:induction false} CountSplit<T>(s: seq<T>, p: T -> bool, q: T -> bool)
    requires forall x :: q(x) == !p(x)
    ensures Count(s, p) + Count(s, q) == |s|
  {
    if s != [] {
      CountSplit(s[1..], p, q);
    }
  }
}
