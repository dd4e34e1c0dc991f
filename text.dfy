/**
 * The parts of Go's `bytes` and `strconv` packages that the port-range codec relies on:
 * trimming by a character class, splitting on a separator, cutting at the first separator,
 * and `strconv.ParseUint(s, 10, 64)`. Each is given with the contract that characterises it.
 */
module GoText {
  import opened Wrappers

  /** Largest value of Go's `uint64`. */
  const MaxUint64: int := 0xFFFF_FFFF_FFFF_FFFF

  /** Go's `uint64`, as an exact integer. */
  type u64 = x: int | 0 <= x <= MaxUint64

  /** `unicode.IsSpace`: the Unicode White_Space characters, which `bytes.TrimSpace` removes. */
  predicate IsSpace(c: char) {
    var n := c as int;
    (0x09 <= n <= 0x0D) || n == 0x20 || n == 0x85 || n == 0xA0 || n == 0x1680
    || (0x2000 <= n <= 0x200A) || n == 0x2028 || n == 0x2029 || n == 0x202F
    || n == 0x205F || n == 0x3000
  }

  /** Every character of `s` satisfies `cut`. */
  predicate AllCut(s: string, cut: char -> bool) {
    forall i :: 0 <= i < |s| ==> cut(s[i])
  }

  /** A non-empty `s` starts and ends with a character outside the cut class. */
  predicate KeptEnds(s: string, cut: char -> bool) {
    s != [] ==> !cut(s[0]) && !cut(s[|s| - 1])
  }

  /** Drops the longest prefix of `s` whose characters all satisfy `cut`. */
  function TrimLeft(s: string, cut: char -> bool): (r: string)
    ensures |r| <= |s| && r == s[|s| - |r|..]
    ensures forall i :: 0 <= i < |s| - |r| ==> cut(s[i])
    ensures r == [] || !cut(r[0])
  {
    if |s| > 0 && cut(s[0]) then TrimLeft(s[1..], cut) else s
  }

  /** Drops the longest suffix of `s` whose characters all satisfy `cut`. */
  function TrimRight(s: string, cut: char -> bool): (r: string)
    ensures |r| <= |s| && r == s[..|r|]
    ensures forall i :: |r| <= i < |s| ==> cut(s[i])
    ensures r == [] || !cut(r[|r| - 1])
  {
    if |s| > 0 && cut(s[|s| - 1]) then TrimRight(s[..|s| - 1], cut) else s
  }

  /**
   * `bytes.Trim` / `bytes.TrimFunc`: both ends stripped, left first. The result is empty exactly
   * when every character is cut, and otherwise starts and ends with a kept character; `TrimShape`
   * states what was removed.
   */
  function Trim(s: string, cut: char -> bool): (r: string)
    ensures |r| <= |s|
    ensures r == [] <==> forall i :: 0 <= i < |s| ==> cut(s[i])
    ensures KeptEnds(r, cut)
  {
    var l := TrimLeft(s, cut);
    var r := TrimRight(l, cut);
    SliceOfSuffix(s, l, r, cut);
    r
  }

  /**
   * Trimming removes only cut characters, and only from the two ends: the input is an all-`cut`
   * prefix, then the result, then an all-`cut` suffix.
   */
  lemma TrimShape(s: string, cut: char -> bool)
    ensures exists p, q :: s == p + Trim(s, cut) + q && AllCut(p, cut) && AllCut(q, cut)
  {
    SliceOfSuffix(s, TrimLeft(s, cut), Trim(s, cut), cut);
  }

  /**
   * The shape of a trim: `l` is `s` without an all-`cut` prefix and starts with a kept character
   * (if any), and `r` is `l` without an all-`cut` suffix and ends with a kept character (if any).
   * Then `s` is an all-`cut` prefix, `r` and an all-`cut` suffix, and `r` is empty only when all of
   * `s` is cut.
   */
  lemma SliceOfSuffix(s: string, l: string, r: string, cut: char -> bool)
    requires |l| <= |s| && l == s[|s| - |l|..]
    requires forall i :: 0 <= i < |s| - |l| ==> cut(s[i])
    requires l == [] || !cut(l[0])
    requires |r| <= |l| && r == l[..|r|]
    requires forall i :: |r| <= i < |l| ==> cut(l[i])
    requires r == [] || !cut(r[|r| - 1])
    ensures exists p, q :: s == p + r + q && AllCut(p, cut) && AllCut(q, cut)
    ensures r == [] <==> forall i :: 0 <= i < |s| ==> cut(s[i])
    ensures KeptEnds(r, cut)
  {
    var a := |s| - |l|;
    var p, q := s[..a], l[|r|..];
    forall i | 0 <= i < |p| ensures cut(p[i]) { }
    forall i | 0 <= i < |q| ensures cut(q[i]) {
      assert q[i] == l[|r| + i];
    }
    assert l == r + q;
    assert s == p + l;
    assert s == p + r + q && AllCut(p, cut) && AllCut(q, cut);
    if r == [] {
      assert l == [];
      forall i | 0 <= i < |s| ensures cut(s[i]) {
        assert s[i] == p[i];
      }
    } else {
      assert r[0] == l[0];
    }
  }

  /** Trimming only removes characters in the cut class: every other character survives. */
  lemma TrimKeeps(s: string, cut: char -> bool, k: nat)
    requires k < |s| && !cut(s[k])
    ensures s[k] in Trim(s, cut)
  {
    var l := TrimLeft(s, cut);
    var off := |s| - |l|;
    assert off <= k;
    assert l[k - off] == s[k];
    var r := TrimRight(l, cut);
    assert k - off < |r|;
    assert r[k - off] == s[k];
  }

  /** Text that starts and ends outside the cut class is left as it is. */
  lemma TrimUntouched(s: string, cut: char -> bool)
    requires s != [] && !cut(s[0]) && !cut(s[|s| - 1])
    ensures Trim(s, cut) == s
  {
    assert TrimLeft(s, cut) == s;
    assert TrimRight(s, cut) == s;
  }

  /** `bytes.TrimSpace`: `Trim` with `unicode.IsSpace` as the cut class. */
  function TrimSpace(s: string): (r: string)
    ensures |r| <= |s|
    ensures r == [] <==> forall i :: 0 <= i < |s| ==> IsSpace(s[i])
    ensures KeptEnds(r, IsSpace)
  {
    Trim(s, IsSpace)
  }

  /** `TrimSpace` removes only white space, and only from the two ends. */
  lemma TrimSpaceShape(s: string)
    ensures exists p, q :: s == p + TrimSpace(s) + q && AllCut(p, IsSpace) && AllCut(q, IsSpace)
  {
    TrimShape(s, IsSpace);
  }

  /** Position of the first occurrence of `c` in `s`. */
  function IndexOf(s: string, c: char): (i: nat)
    requires c in s
    ensures i < |s| && s[i] == c && c !in s[..i]
  {
    if s[0] == c then 0 else 1 + IndexOf(s[1..], c)
  }

  /** `IndexOf` finds the first occurrence: a position holding `c` with no `c` before it. */
  lemma IndexOfFirst(s: string, c: char, i: nat)
    requires i < |s| && s[i] == c && c !in s[..i]
    ensures IndexOf(s, c) == i
  {
  }

  /** The pieces `Split` produces, glued back together with the separator. */
  function Join(parts: seq<string>, sep: char): string
    requires |parts| >= 1
  {
    if |parts| == 1 then parts[0] else parts[0] + [sep] + Join(parts[1..], sep)
  }

  /**
   * `bytes.Split(s, sep)` for a one-character separator: the pieces between separators.
   * There is one piece more than there are separators, so an empty `s` gives `[""]` and a
   * trailing separator gives a trailing empty piece.
   */
  function Split(s: string, sep: char): (parts: seq<string>)
    ensures |parts| >= 1
    ensures forall i :: 0 <= i < |parts| ==> sep !in parts[i]
    ensures Join(parts, sep) == s
    decreases |s|
  {
    if sep !in s then [s]
    else
      var i := IndexOf(s, sep);
      var rest := Split(s[i + 1..], sep);
      assert s == s[..i] + [sep] + s[i + 1..];
      [s[..i]] + rest
  }

  /** `Split` cuts at the first separator and splits the rest. */
  lemma SplitAt(s: string, sep: char, i: nat)
    requires i < |s| && s[i] == sep && sep !in s[..i]
    ensures Split(s, sep) == [s[..i]] + Split(s[i + 1..], sep)
  {
    IndexOfFirst(s, sep, i);
  }

  /** Two separator-free texts joined by the separator split back into the two. */
  lemma SplitTwo(a: string, b: string, sep: char)
    requires sep !in a && sep !in b
    ensures Split(a + [sep] + b, sep) == [a, b]
  {
    var s := a + [sep] + b;
    assert s[..|a|] == a && s[|a| + 1..] == b;
    SplitAt(s, sep, |a|);
  }

  /**
   * `bytes.SplitN(s, sep, 2)`: `None` when `s` has no separator (Go returns one piece),
   * otherwise the text before the first separator and everything after it.
   */
  function SplitFirst(s: string, sep: char): (r: Option<(string, string)>)
    ensures r.None? <==> sep !in s
    ensures r.Some? ==> sep !in r.value.0 && r.value.0 + [sep] + r.value.1 == s
  {
    if sep !in s then None
    else
      var i := IndexOf(s, sep);
      assert s == s[..i] + [sep] + s[i + 1..];
      Some((s[..i], s[i + 1..]))
  }

  /** `SplitN(…, 2)` cuts at the first separator: a separator-free text, the separator, then anything. */
  lemma CutAt(a: string, b: string, sep: char)
    requires sep !in a
    ensures SplitFirst(a + [sep] + b, sep) == Some((a, b))
  {
    var s := a + [sep] + b;
    assert s[..|a|] == a && s[|a| + 1..] == b;
    IndexOfFirst(s, sep, |a|);
  }

  predicate IsDigit(c: char) {
    '0' <= c <= '9'
  }

  predicate AllDigits(s: string) {
    forall i :: 0 <= i < |s| ==> IsDigit(s[i])
  }

  function DigitValue(c: char): nat {
    if IsDigit(c) then c as int - '0' as int else 0
  }

  /** The base-10 value of a digit string (most significant digit first). */
  function Decimal(s: string): nat {
    if s == [] then 0 else 10 * Decimal(s[..|s| - 1]) + DigitValue(s[|s| - 1])
  }

  /** What `strconv.ParseUint(s, 10, 64)` accepts: a non-empty digit string within `uint64`. */
  predicate IsUint64Text(s: string) {
    s != [] && AllDigits(s) && Decimal(s) <= MaxUint64
  }

  /** The two error kinds of `strconv.ParseUint`: `ErrSyntax` and `ErrRange`. */
  datatype NumErr = ErrSyntax | ErrRange

  /** Go's `cutoff` for base 10: the smallest accumulator that overflows when multiplied by 10. */
  const Cutoff: int := MaxUint64 / 10 + 1

  /**
   * The digit loop of `strconv.ParseUint` from position `i` with accumulator `n`: a non-digit is a
   * syntax error, an accumulator at the cutoff or a step that wraps past `MaxUint64` is a range error.
   */
  function Scan(s: string, i: nat, n: u64): Result<u64, NumErr>
    requires i <= |s|
    decreases |s| - i
  {
    if i == |s| then Success(n)
    else if !IsDigit(s[i]) then Failure(ErrSyntax)
    else if n >= Cutoff then Failure(ErrRange)
    else if n * 10 + DigitValue(s[i]) > MaxUint64 then Failure(ErrRange)
    else Scan(s, i + 1, n * 10 + DigitValue(s[i]))
  }

  /** `strconv.ParseUint(s, 10, 64)`; the empty string is a syntax error. */
  function ParseUint(s: string): Result<u64, NumErr> {
    if s == [] then Failure(ErrSyntax) else Scan(s, 0, 0)
  }

  lemma {:induction false} DecimalPrefixMonotone(s: string, i: nat, j: nat)
    requires i <= j <= |s|
    ensures Decimal(s[..i]) <= Decimal(s[..j])
    decreases j - i
  {
    if i < j {
      DecimalPrefixMonotone(s, i, j - 1);
      assert s[..j][..j - 1] == s[..j - 1];
    }
  }

  lemma {:induction false} ScanFrom(s: string, i: nat)
    requires i <= |s| && AllDigits(s[..i]) && Decimal(s[..i]) <= MaxUint64
    ensures AllDigits(s) && Decimal(s) <= MaxUint64 ==> Scan(s, i, Decimal(s[..i])) == Success(Decimal(s))
    ensures AllDigits(s) && Decimal(s) > MaxUint64 ==> Scan(s, i, Decimal(s[..i])) == Failure(ErrRange)
    ensures forall k :: i <= k < |s| && AllDigits(s[..k]) && !IsDigit(s[k]) ==>
      Scan(s, i, Decimal(s[..i])) == Failure(if Decimal(s[..k]) <= MaxUint64 then ErrSyntax else ErrRange)
    decreases |s| - i
  {
    var n := Decimal(s[..i]);
    if i == |s| {
      assert s[..i] == s;
    } else if !IsDigit(s[i]) {
      assert !AllDigits(s);
      forall k | i <= k < |s| && AllDigits(s[..k]) && !IsDigit(s[k])
        ensures k == i
      {
        assert forall j :: 0 <= j < k ==> s[..k][j] == s[j];
      }
    } else {
      assert s[..i + 1][..i] == s[..i];
      var n' := n * 10 + DigitValue(s[i]);
      assert n' == Decimal(s[..i + 1]);
      assert AllDigits(s[..i + 1]) by {
        forall j | 0 <= j < i + 1 ensures IsDigit(s[j]) {
          if j < i { assert s[..i][j] == s[j]; }
        }
      }
      if n >= Cutoff || n' > MaxUint64 {
        assert n' > MaxUint64;
        DecimalPrefixMonotone(s, i + 1, |s|);
        assert s[..|s|] == s;
        forall k | i <= k < |s| && AllDigits(s[..k]) && !IsDigit(s[k])
          ensures Decimal(s[..k]) > MaxUint64
        {
          assert k != i;
          DecimalPrefixMonotone(s, i + 1, k);
        }
      } else {
        ScanFrom(s, i + 1);
        forall k | i <= k < |s| && AllDigits(s[..k]) && !IsDigit(s[k])
          ensures i + 1 <= k
        {
          assert k != i;
        }
      }
    }
  }

  /**
   * `strconv.ParseUint(s, 10, 64)` succeeds exactly on non-empty digit strings whose value fits in
   * `uint64`, and then returns that value; an empty string is a syntax error; an all-digit string
   * that is too large is a range error; otherwise the first non-digit is a syntax error unless the
   * digits before it already overflowed.
   */
  /** The part of `ParseUintSpec` that decides success: `ParseUint` accepts exactly the `uint64` texts. */
  lemma ParseUintAccepts(s: string)
    ensures ParseUint(s).Success? <==> IsUint64Text(s)
    ensures ParseUint(s).Success? ==> ParseUint(s).value == Decimal(s)
  {
    ParseUintSpec(s);
  }

  lemma ParseUintSpec(s: string)
    ensures ParseUint(s).Success? <==> IsUint64Text(s)
    ensures ParseUint(s).Success? ==> ParseUint(s).value == Decimal(s)
    ensures s == [] ==> ParseUint(s) == Failure(ErrSyntax)
    ensures s != [] && AllDigits(s) && Decimal(s) > MaxUint64 ==> ParseUint(s) == Failure(ErrRange)
    ensures forall k :: 0 <= k < |s| && AllDigits(s[..k]) && !IsDigit(s[k]) ==>
      ParseUint(s) == Failure(if Decimal(s[..k]) <= MaxUint64 then ErrSyntax else ErrRange)
  {
    if s != [] {
      assert s[..0] == [];
      ScanFrom(s, 0);
      if !AllDigits(s) {
        var k :| 0 <= k < |s| && !IsDigit(s[k]);
        FirstNonDigit(s, k);
      }
    }
  }

  /** A string with a non-digit has a first non-digit. */
  lemma {:induction false} FirstNonDigit(s: string, k: nat)
    requires k < |s| && !IsDigit(s[k])
    ensures exists f :: 0 <= f < |s| && AllDigits(s[..f]) && !IsDigit(s[f])
    decreases k
  {
    if AllDigits(s[..k]) {
    } else {
      var j :| 0 <= j < k && !IsDigit(s[..k][j]);
      FirstNonDigit(s, j);
    }
  }
}
