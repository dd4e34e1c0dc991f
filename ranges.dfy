/**
 * The port-range codec of the master collector: the `ranges` type ([][2]uint64), its JSON decoder
 * `UnmarshalJSON` (text such as `"[31000-32000, 40000-40010]"`) and `size`, the number of ports
 * the pairs cover, counted in wrapping `uint64` arithmetic.
 */
module Ranges {
  import opened Wrappers
  import opened GoText

  /** One inclusive `[2]uint64` pair. Nothing enforces `lo <= hi`. */
  datatype Range = Range(lo: u64, hi: u64)

  /** The errors `UnmarshalJSON` returns: its own "bad range" and `strconv.ParseUint`'s `*NumError`. */
  datatype ParseError = BadRange(token: string) | NumError(num: string, err: NumErr)

  /** The cutset `[]"` that `bytes.Trim` strips from both ends before tokenising. */
  predicate IsDecoration(c: char) {
    c == '[' || c == ']' || c == '"'
  }

  /** One comma-separated token: cut at the first `-`, trim spaces, parse both halves. */
  function ParseRange(token: string): Result<Range, ParseError> {
    match SplitFirst(token, '-')
    case None => Failure(BadRange(token))
    case Some(halves) =>
      var lo, hi := TrimSpace(halves.0), TrimSpace(halves.1);
      match ParseUint(lo)
      case Failure(e) => Failure(NumError(lo, e))
      case Success(l) =>
        match ParseUint(hi)
        case Failure(e) => Failure(NumError(hi, e))
        case Success(h) => Success(Range(l, h))
  }

  /** What a decode appends, and the error it stops at (if any). */
  datatype Parsed<T, E> = Parsed(values: seq<T>, err: Option<E>)

  /** Tokens parsed in order, stopping at the first that fails. */
  function ParseAll<T, E>(tokens: seq<string>, parse: string -> Result<T, E>): Parsed<T, E> {
    if tokens == [] then Parsed([], None)
    else
      match parse(tokens[0])
      case Failure(e) => Parsed([], Some(e))
      case Success(v) =>
        var rest := ParseAll(tokens[1..], parse);
        Parsed([v] + rest.values, rest.err)
  }

  /**
   * What `ParseAll` yields: the values of the leading tokens that parse, in order, and the error
   * of the first token that does not; no error exactly when every token parsed.
   */
  lemma {:induction false} ParseAllSpec<T, E>(tokens: seq<string>, parse: string -> Result<T, E>)
    ensures var r := ParseAll(tokens, parse);
      && |r.values| <= |tokens|
      && (forall i :: 0 <= i < |r.values| ==> parse(tokens[i]) == Success(r.values[i]))
      && (r.err.None? <==> |r.values| == |tokens|)
      && (r.err.Some? ==> parse(tokens[|r.values|]) == Failure(r.err.value))
  {
    if tokens != [] && parse(tokens[0]).Success? {
      ParseAllSpec(tokens[1..], parse);
    }
  }

  /** One step of `ParseAll`: whether token `i` parses decides whether it contributes a value or the error. */
  lemma ParseAllAt<T, E>(tokens: seq<string>, parse: string -> Result<T, E>, i: nat)
    requires i < |tokens| && i <= |ParseAll(tokens, parse).values|
    ensures parse(tokens[i]).Success? <==> i < |ParseAll(tokens, parse).values|
    ensures parse(tokens[i]).Success? ==> ParseAll(tokens, parse).values[i] == parse(tokens[i]).value
    ensures parse(tokens[i]).Failure? ==> ParseAll(tokens, parse).err == Some(parse(tokens[i]).error)
  {
    ParseAllSpec(tokens, parse);
  }

  /** When every token parses, `ParseAll` yields one value per token and no error. */
  lemma ParseAllTotal<T, E>(tokens: seq<string>, parse: string -> Result<T, E>)
    requires forall i :: 0 <= i < |tokens| ==> parse(tokens[i]).Success?
    ensures ParseAll(tokens, parse).err == None && |ParseAll(tokens, parse).values| == |tokens|
    ensures forall i :: 0 <= i < |tokens| ==> ParseAll(tokens, parse).values[i] == parse(tokens[i]).value
  {
    ParseAllSpec(tokens, parse);
  }

  /** When token `k` is the first that fails, `ParseAll` yields the values of the tokens before it and its error. */
  lemma ParseAllFirstFailure<T, E>(tokens: seq<string>, parse: string -> Result<T, E>, k: nat)
    requires k < |tokens| && parse(tokens[k]).Failure?
    requires forall i :: 0 <= i < k ==> parse(tokens[i]).Success?
    ensures |ParseAll(tokens, parse).values| == k
    ensures forall i :: 0 <= i < k ==> ParseAll(tokens, parse).values[i] == parse(tokens[i]).value
    ensures ParseAll(tokens, parse).err == Some(parse(tokens[k]).error)
  {
    ParseAllSpec(tokens, parse);
  }

  /** The whole decode of one JSON value: strip `[]"`, nothing left means nothing to do. */
  function Decode(data: string): Parsed<Range, ParseError> {
    var t := Trim(data, IsDecoration);
    if t == [] then Parsed([], None) else ParseAll(Split(t, ','), ParseRange)
  }

  /**
   * `(*ranges).UnmarshalJSON`: `rs` is the slice `*rs` holds on entry, `rs'` the one it holds on
   * return. Pairs are appended one token at a time, so the pairs of the tokens before a failing
   * token stay appended.
   */
  method UnmarshalJSON(rs: seq<Range>, data: string) returns (rs': seq<Range>, err: Option<ParseError>)
    ensures rs' == rs + Decode(data).values
    ensures err == Decode(data).err
  {
    var trimmed := Trim(data, IsDecoration);
    if |trimmed| == 0 {
      assert Decode(data) == Parsed([], None);
      return rs, None;
    }
    rs', err := AppendParsed(rs, Split(trimmed, ','), ParseRange);
  }

  /**
   * The token loop of `UnmarshalJSON`: each token is parsed and its value appended at once; the
   * first token that fails ends the loop with its error.
   */
  method AppendParsed<T, E>(acc: seq<T>, tokens: seq<string>, parse: string -> Result<T, E>)
    returns (acc': seq<T>, err: Option<E>)
    ensures acc' == acc + ParseAll(tokens, parse).values
    ensures err == ParseAll(tokens, parse).err
  {
    acc', err := acc, None;
    ghost var all := ParseAll(tokens, parse);
    var i := 0;
    while i < |tokens|
      invariant i <= |all.values| && acc' == acc + all.values[..i]
    {
      ParseAllAt(tokens, parse, i);
      var parsed := parse(tokens[i]);
      if parsed.Failure? {
        err := Some(parsed.error);
        return;
      }
      acc' := acc' + [parsed.value];
      i := i + 1;
    }
    ParseAllSpec(tokens, parse);
    assert all.values[..i] == all.values;
  }

  /** The first position of `-` in a token that has one: where `bytes.SplitN(token, "-", 2)` cuts. */
  function Dash(token: string): nat
    requires '-' in token
  {
    IndexOf(token, '-')
  }

  /** The space-trimmed text before the first `-`: the low bound's digits. */
  function LowText(token: string): string
    requires '-' in token
  {
    TrimSpace(token[..Dash(token)])
  }

  /** The space-trimmed text after the first `-`: the high bound's digits. */
  function HighText(token: string): string
    requires '-' in token
  {
    TrimSpace(token[Dash(token) + 1..])
  }

  /** A token `UnmarshalJSON` accepts: a `-`, with a decimal `uint64` on either side of the first one. */
  predicate WellFormedToken(token: string) {
    '-' in token && IsUint64Text(LowText(token)) && IsUint64Text(HighText(token))
  }

  /** The pair a well-formed token denotes. */
  function TokenValue(token: string): Range
    requires WellFormedToken(token)
  {
    Range(Decimal(LowText(token)), Decimal(HighText(token)))
  }

  /** `bytes.SplitN(token, "-", 2)` cuts a token that has a `-` at its first one. */
  lemma SplitAtDash(token: string)
    requires '-' in token
    ensures SplitFirst(token, '-') == Some((token[..Dash(token)], token[Dash(token) + 1..]))
  {
  }

  /**
   * A token parses exactly when it has a `-` and the space-trimmed texts before and after the first
   * `-` are both decimal `uint64`s; the pair is then their values. A token without `-` is a
   * "bad range". Otherwise the low bound is parsed first, so a bad low bound gives its own
   * `NumError` whatever the high bound holds, and a bad high bound gives its `NumError` only when
   * the low bound is good.
   */
  lemma ParseRangeSpec(token: string)
    ensures '-' !in token ==> ParseRange(token) == Failure(BadRange(token))
    ensures ParseRange(token).Success? <==> WellFormedToken(token)
    ensures WellFormedToken(token) ==> ParseRange(token) == Success(TokenValue(token))
    ensures '-' in token && ParseUint(LowText(token)).Failure? ==>
      ParseRange(token) == Failure(NumError(LowText(token), ParseUint(LowText(token)).error))
    ensures '-' in token && ParseUint(LowText(token)).Success? && ParseUint(HighText(token)).Failure? ==>
      ParseRange(token) == Failure(NumError(HighText(token), ParseUint(HighText(token)).error))
  {
    if '-' in token {
      var lo, hi := LowText(token), HighText(token);
      SplitAtDash(token);
      assert ParseRange(token) ==
        if ParseUint(lo).Failure? then Failure(NumError(lo, ParseUint(lo).error))
        else if ParseUint(hi).Failure? then Failure(NumError(hi, ParseUint(hi).error))
        else Success(Range(ParseUint(lo).value, ParseUint(hi).value));
      ParseUintAccepts(lo);
      ParseUintAccepts(hi);
    }
  }

  /**
   * Only the first `-` separates the bounds: a token with a second `-`, such as `1-2-3`, does not
   * parse, because the text after the first `-` is then not a decimal number.
   */
  lemma ExtraDashRejected(token: string)
    requires '-' in token && '-' in token[Dash(token) + 1..]
    ensures ParseRange(token).Failure?
    ensures !WellFormedToken(token)
  {
    var rest := token[Dash(token) + 1..];
    TrimKeeps(rest, IsSpace, IndexOf(rest, '-'));
    var t := TrimSpace(rest);
    var j :| 0 <= j < |t| && t[j] == '-';
    assert !IsDigit(t[j]);
    ParseRangeSpec(token);
  }

  /** The input decodes to nothing, without error, exactly when it is made only of `[`, `]` and `"`. */
  lemma DecodeNothing(data: string)
    ensures Decode(data) == Parsed([], None) <==> forall i :: 0 <= i < |data| ==> IsDecoration(data[i])
  {
  }

  /** The tokens `UnmarshalJSON` parses: the comma-separated pieces of the trimmed input. */
  function Tokens(data: string): seq<string> {
    Split(Trim(data, IsDecoration), ',')
  }

  /**
   * A well-formed input (every token a `lo-hi` pair of decimal `uint64`s) decodes without error
   * to one pair per token, in input order, each bound the decimal value of its trimmed text.
   */
  lemma DecodeWellFormed(data: string)
    requires forall i :: 0 <= i < |Tokens(data)| ==> WellFormedToken(Tokens(data)[i])
    ensures Decode(data).err == None && |Decode(data).values| == |Tokens(data)|
    ensures forall i :: 0 <= i < |Tokens(data)| ==> Decode(data).values[i] == TokenValue(Tokens(data)[i])
  {
    assert WellFormedToken(Tokens(data)[0]);
    assert Decode(data) == ParseAll(Tokens(data), ParseRange);
    WellFormedTokensParse(Tokens(data));
  }

  lemma WellFormedTokensParse(tokens: seq<string>)
    requires forall i :: 0 <= i < |tokens| ==> WellFormedToken(tokens[i])
    ensures ParseAll(tokens, ParseRange).err == None && |ParseAll(tokens, ParseRange).values| == |tokens|
    ensures forall i :: 0 <= i < |tokens| ==> ParseAll(tokens, ParseRange).values[i] == TokenValue(tokens[i])
  {
    forall i | 0 <= i < |tokens|
      ensures ParseRange(tokens[i]) == Success(TokenValue(tokens[i]))
    {
      ParseRangeSpec(tokens[i]);
    }
    ParseAllTotal(tokens, ParseRange);
  }

  /**
   * A failing token stops the decode: if token `k` is the first that does not parse, the pairs are
   * those of tokens `0..k-1` and the error is token `k`'s.
   */
  lemma DecodeStopsAtFirstError(data: string, k: nat)
    requires Trim(data, IsDecoration) != []
    requires k < |Tokens(data)| && ParseRange(Tokens(data)[k]).Failure?
    requires forall i :: 0 <= i < k ==> ParseRange(Tokens(data)[i]).Success?
    ensures |Decode(data).values| == k
    ensures forall i :: 0 <= i < k ==> Decode(data).values[i] == ParseRange(Tokens(data)[i]).value
    ensures Decode(data).err == Some(ParseRange(Tokens(data)[k]).error)
  {
    ParseAllFirstFailure(Tokens(data), ParseRange, k);
  }

  // ---------------------------------------------------------------- decoding, by example

  /** Digit text holds no `-`, `,` or decoration. */
  lemma DigitsOnly(s: string)
    requires AllDigits(s)
    ensures '-' !in s && ',' !in s
    ensures forall k :: 0 <= k < |s| ==> !IsDecoration(s[k])
  {
    forall k | 0 <= k < |s| ensures s[k] != '-' && s[k] != ',' && !IsDecoration(s[k]) {
      assert IsDigit(s[k]);
    }
  }

  /** A `lo-hi` token of digit texts has no comma, and starts and ends with a digit. */
  lemma PairTokenShape(lo: string, hi: string)
    requires lo != [] && hi != [] && AllDigits(lo) && AllDigits(hi)
    ensures var token := lo + "-" + hi;
      ',' !in token && !IsDecoration(token[0]) && !IsDecoration(token[|token| - 1])
  {
    var token := lo + "-" + hi;
    DigitsOnly(lo);
    DigitsOnly(hi);
    assert token[0] == lo[0] && token[|token| - 1] == hi[|hi| - 1];
    forall k | 0 <= k < |token| ensures token[k] != ',' {
      if k < |lo| { assert token[k] == lo[k]; }
      else if k > |lo| { assert token[k] == hi[k - |lo| - 1]; }
    }
  }

  /** A `lo-hi` token of decimal `uint64` texts parses to their values. */
  lemma PairTokenParses(lo: string, hi: string)
    requires IsUint64Text(lo) && IsUint64Text(hi)
    ensures ParseRange(lo + "-" + hi) == Success(Range(Decimal(lo), Decimal(hi)))
  {
    DigitsOnly(lo);
    CutAt(lo, hi, '-');
    TrimUntouched(lo, IsSpace);
    TrimUntouched(hi, IsSpace);
    ParseUintAccepts(lo);
    ParseUintAccepts(hi);
  }

  /** Input that neither starts nor ends with decoration is split as it is. */
  lemma DecodeUntrimmed(data: string)
    requires data != [] && !IsDecoration(data[0]) && !IsDecoration(data[|data| - 1])
    ensures Decode(data) == ParseAll(Split(data, ','), ParseRange)
  {
    TrimUntouched(data, IsDecoration);
  }

  /** Comma-free texts around one comma, with no decoration at the ends, are two tokens. */
  lemma DecodeTwoTokens(a: string, b: string)
    requires a != [] && ',' !in a && ',' !in b && !IsDecoration(a[0])
    requires b == [] || !IsDecoration(b[|b| - 1])
    ensures Decode(a + "," + b) == ParseAll([a, b], ParseRange)
  {
    var data := a + "," + b;
    assert data[0] == a[0] && data[|data| - 1] == if b == [] then ',' else b[|b| - 1];
    DecodeUntrimmed(data);
    SplitTwo(a, b, ',');
  }

  /** `ParseAll` on one token: its value, or its error. */
  lemma ParseAllOne<T, E>(a: string, parse: string -> Result<T, E>)
    ensures parse(a).Success? ==> ParseAll([a], parse) == Parsed([parse(a).value], None)
    ensures parse(a).Failure? ==> ParseAll([a], parse) == Parsed([], Some(parse(a).error))
  {
    assert [a][1..] == [];
  }

  /** `ParseAll` on two tokens of which the first parses. */
  lemma ParseAllTwo<T, E>(a: string, b: string, parse: string -> Result<T, E>)
    requires parse(a).Success?
    ensures parse(b).Success? ==> ParseAll([a, b], parse) == Parsed([parse(a).value, parse(b).value], None)
    ensures parse(b).Failure? ==> ParseAll([a, b], parse) == Parsed([parse(a).value], Some(parse(b).error))
  {
    assert [a, b][1..] == [b];
    ParseAllOne(b, parse);
  }

  /** `lo-hi` with decimal `uint64` bounds decodes to that one pair. */
  lemma DecodePair(lo: string, hi: string)
    requires IsUint64Text(lo) && IsUint64Text(hi)
    ensures Decode(lo + "-" + hi) == Parsed([Range(Decimal(lo), Decimal(hi))], None)
  {
    var token := lo + "-" + hi;
    PairTokenShape(lo, hi);
    DecodeUntrimmed(token);
    assert Split(token, ',') == [token];
    PairTokenParses(lo, hi);
    ParseAllOne(token, ParseRange);
  }

  /** Two such pairs separated by a comma decode to both pairs, in input order. */
  lemma DecodeTwoPairs(lo1: string, hi1: string, lo2: string, hi2: string)
    requires IsUint64Text(lo1) && IsUint64Text(hi1) && IsUint64Text(lo2) && IsUint64Text(hi2)
    ensures Decode((lo1 + "-" + hi1) + "," + (lo2 + "-" + hi2))
         == Parsed([Range(Decimal(lo1), Decimal(hi1)), Range(Decimal(lo2), Decimal(hi2))], None)
  {
    PairTokenShape(lo1, hi1);
    PairTokenShape(lo2, hi2);
    DecodeTwoTokens(lo1 + "-" + hi1, lo2 + "-" + hi2);
    ParseTwoPairs(lo1, hi1, lo2, hi2);
  }

  /** Two pair tokens parse to their two pairs. */
  lemma ParseTwoPairs(lo1: string, hi1: string, lo2: string, hi2: string)
    requires IsUint64Text(lo1) && IsUint64Text(hi1) && IsUint64Text(lo2) && IsUint64Text(hi2)
    ensures ParseAll([lo1 + "-" + hi1, lo2 + "-" + hi2], ParseRange)
         == Parsed([Range(Decimal(lo1), Decimal(hi1)), Range(Decimal(lo2), Decimal(hi2))], None)
  {
    PairTokenParses(lo1, hi1);
    PairTokenParses(lo2, hi2);
    ParseAllTwo(lo1 + "-" + hi1, lo2 + "-" + hi2, ParseRange);
  }

  /**
   * A trailing comma after a pair: the empty token after it is a "bad range", and the pair before
   * it is still decoded.
   */
  lemma DecodeTrailingComma(lo: string, hi: string)
    requires IsUint64Text(lo) && IsUint64Text(hi)
    ensures Decode(lo + "-" + hi + ",") == Parsed([Range(Decimal(lo), Decimal(hi))], Some(BadRange("")))
  {
    var a := lo + "-" + hi;
    PairTokenShape(lo, hi);
    assert a + "," == a + "," + [];
    DecodeTwoTokens(a, []);
    PairTokenParses(lo, hi);
    assert ParseRange([]) == Failure(BadRange([]));
    ParseAllTwo(a, [], ParseRange);
  }

  /** A single token without `-` is a "bad range" carrying the whole token. */
  lemma DecodeNoDash(token: string)
    requires token != [] && '-' !in token && ',' !in token
    requires !IsDecoration(token[0]) && !IsDecoration(token[|token| - 1])
    ensures Decode(token) == Parsed([], Some(BadRange(token)))
  {
    DecodeUntrimmed(token);
    assert Split(token, ',') == [token];
    ParseAllOne(token, ParseRange);
  }

  /** `lo-` with a valid low bound fails on the empty high bound with `ParseUint`'s syntax error. */
  lemma EmptyHighToken(lo: string)
    requires IsUint64Text(lo)
    ensures ParseRange(lo + "-") == Failure(NumError("", ErrSyntax))
  {
    DigitsOnly(lo);
    assert lo + "-" == lo + ['-'] + [];
    CutAt(lo, [], '-');
    TrimUntouched(lo, IsSpace);
    ParseUintAccepts(lo);
    assert TrimSpace([]) == [] && ParseUint([]) == Failure(ErrSyntax);
  }

  /** `lo-` with a valid low bound decodes to nothing and that syntax error on "". */
  lemma DecodeEmptyHigh(lo: string)
    requires IsUint64Text(lo)
    ensures Decode(lo + "-") == Parsed([], Some(NumError("", ErrSyntax)))
  {
    var token := lo + "-";
    DigitsOnly(lo);
    assert token[0] == lo[0];
    forall k | 0 <= k < |token| ensures token[k] != ',' {
      if k < |lo| { assert token[k] == lo[k]; }
    }
    DecodeUntrimmed(token);
    assert Split(token, ',') == [token];
    EmptyHighToken(lo);
    ParseAllOne(token, ParseRange);
  }

  /** Sample inputs with nothing to decode: empty text, and decoration only. */
  lemma DecodeEmptyExamples()
    ensures Decode("") == Parsed([], None)
    ensures Decode("[\"\"]") == Parsed([], None)
  {
    DecodeNothing("[\"\"]");
  }

  /** A sample single pair. */
  lemma DecodeOnePairExample()
    ensures Decode("5-5") == Parsed([Range(5, 5)], None)
  {
    assert Decimal("5") == 5 by { assert "5"[..0] == []; }
    assert "5" + "-" + "5" == "5-5";
    DecodePair("5", "5");
  }

  /** A sample of two pairs, in input order. */
  lemma DecodeTwoPairsExample()
    ensures Decode("0-3,10-12") == Parsed([Range(0, 3), Range(10, 12)], None)
  {
    assert Decimal("0") == 0 && Decimal("3") == 3 by { assert "0"[..0] == "3"[..0] == []; }
    assert Decimal("10") == 10 && Decimal("12") == 12 by {
      assert "10"[..1] == "12"[..1] == "1" && "1"[..0] == [];
    }
    var a, b := "0" + "-" + "3", "10" + "-" + "12";
    assert a + "," + b == "0-3,10-12";
    DecodeTwoPairs("0", "3", "10", "12");
  }

  /** A sample trailing comma: the pair is kept and the empty token is a "bad range". */
  lemma DecodeTrailingCommaExample()
    ensures Decode("1-2,") == Parsed([Range(1, 2)], Some(BadRange("")))
  {
    assert Decimal("1") == 1 && Decimal("2") == 2 by { assert "1"[..0] == "2"[..0] == []; }
    assert "1" + "-" + "2" + "," == "1-2,";
    DecodeTrailingComma("1", "2");
  }

  /** A sample token without `-`. */
  lemma DecodeNoDashExample()
    ensures Decode("abc") == Parsed([], Some(BadRange("abc")))
  {
    DecodeNoDash("abc");
  }

  /** A sample token with an empty high bound. */
  lemma DecodeEmptyHighExample()
    ensures Decode("5-") == Parsed([], Some(NumError("", ErrSyntax)))
  {
    assert Decimal("5") == 5 by { assert "5"[..0] == []; }
    assert "5" + "-" == "5-";
    DecodeEmptyHigh("5");
  }

  // ---------------------------------------------------------------- size

  /** 2^64: Go's `uint64` arithmetic is arithmetic modulo this. */
  const Modulus: int := MaxUint64 + 1

  function AddUint64(a: u64, b: u64): u64 {
    (a + b) % Modulus
  }

  function SubUint64(a: u64, b: u64): u64 {
    (a - b) % Modulus
  }

  /** The exact number of ports `r` names, `hi - lo + 1`; zero or negative when `hi < lo`. */
  function Width(r: Range): int {
    r.hi - r.lo + 1
  }

  /** The exact sum of the widths: overlapping and repeated pairs are each counted. */
  function Total(rs: seq<Range>): int {
    if rs == [] then 0 else Total(rs[..|rs| - 1]) + Width(rs[|rs| - 1])
  }

  /** `ranges.size`: what the wrapping loop computes, the exact total reduced modulo 2^64. */
  function SizeOf(rs: seq<Range>): u64 {
    Total(rs) % Modulus
  }

  /** `ranges.size`: accumulates `1 + (hi - lo)` per pair in wrapping `uint64` arithmetic. */
  method Size(rs: seq<Range>) returns (sz: u64)
    ensures sz == Total(rs) % Modulus
  {
    sz := 0;
    for i := 0 to |rs|
      invariant sz == Total(rs[..i]) % Modulus
    {
      assert rs[..i + 1][..i] == rs[..i];
      WrappingStep(Total(rs[..i]), sz, rs[i]);
      sz := AddUint64(sz, AddUint64(1, SubUint64(rs[i].hi, rs[i].lo)));
    }
    assert rs[..|rs|] == rs;
  }

  /** One iteration of the `size` loop adds the pair's width modulo 2^64. */
  lemma WrappingStep(total: int, sz: u64, r: Range)
    requires sz == total % Modulus
    ensures AddUint64(sz, AddUint64(1, SubUint64(r.hi, r.lo))) == (total + Width(r)) % Modulus
  {
    var d := SubUint64(r.hi, r.lo);
    var w := AddUint64(1, d);
    assert w == (Width(r)) % Modulus by {
      ModAdd(1, r.hi - r.lo);
    }
    ModAdd(total, Width(r));
  }

  lemma ModAdd(a: int, b: int)
    ensures (a + b) % Modulus == (a % Modulus + b % Modulus) % Modulus
  {
  }

  /**
   * `size` of a few pair lists: a single port, two disjoint pairs, two overlapping pairs (the
   * shared ports counted twice), the whole `uint64` range (wrapping to 0) and a reversed pair,
   * which nothing rejects and which wraps to 2^64 - 1.
   */
  lemma SizeExamples()
    ensures SizeOf([Range(5, 5)]) == 1
    ensures SizeOf([Range(31000, 32000)]) == 1001
    ensures SizeOf([Range(0, 3), Range(10, 12)]) == 7
    ensures SizeOf([Range(0, 3), Range(2, 5)]) == 8
    ensures SizeOf([Range(0, MaxUint64)]) == 0
    ensures SizeOf([Range(5, 3)]) == MaxUint64
  {
    assert [Range(0, 3), Range(10, 12)][..1] == [Range(0, 3)];
    assert [Range(0, 3), Range(2, 5)][..1] == [Range(0, 3)];
  }

  /** Totals add up over concatenation. */
  lemma {:induction false} TotalAppend(a: seq<Range>, b: seq<Range>)
    ensures Total(a + b) == Total(a) + Total(b)
    decreases |b|
  {
    if b != [] {
      assert (a + b)[..|a + b| - 1] == a + b[..|b| - 1];
      TotalAppend(a, b[..|b| - 1]);
    } else {
      assert a + b == a;
    }
  }

  /**
   * `size` is additive over concatenation modulo 2^64; in particular a list holding every pair
   * twice has twice the size, since pairs are never merged or deduplicated.
   */
  lemma SizeAppend(a: seq<Range>, b: seq<Range>)
    ensures SizeOf(a + b) == (SizeOf(a) + SizeOf(b)) % Modulus
  {
    TotalAppend(a, b);
    ModAdd(Total(a), Total(b));
  }

  /** The integers from `lo` to `hi` inclusive. */
  function Interval(lo: int, hi: int): (s: set<int>)
    ensures forall p :: p in s <==> lo <= p <= hi
    decreases hi - lo
  {
    if hi < lo then {} else Interval(lo, hi - 1) + {hi}
  }

  /** The ports an inclusive pair names. */
  function Ports(r: Range): set<int> {
    Interval(r.lo, r.hi)
  }

  /** The ports a list of pairs names. */
  function AllPorts(rs: seq<Range>): set<int> {
    if rs == [] then {} else AllPorts(rs[..|rs| - 1]) + Ports(rs[|rs| - 1])
  }

  /** No two pairs of the list overlap, and each is well-formed. */
  predicate Disjoint(rs: seq<Range>) {
    && (forall i :: 0 <= i < |rs| ==> rs[i].lo <= rs[i].hi)
    && (forall i, j :: 0 <= i < j < |rs| ==> rs[i].hi < rs[j].lo || rs[j].hi < rs[i].lo)
  }

  /** An interval with `lo <= hi + 1` holds `hi - lo + 1` integers. */
  lemma {:induction false} IntervalSize(lo: int, hi: int)
    requires lo <= hi + 1
    ensures |Interval(lo, hi)| == hi - lo + 1
    decreases hi - lo
  {
    if lo <= hi {
      IntervalSize(lo, hi - 1);
    }
  }

  lemma {:induction false} AllPortsIn(rs: seq<Range>, p: int)
    requires p in AllPorts(rs)
    ensures exists i :: 0 <= i < |rs| && rs[i].lo <= p <= rs[i].hi
    decreases |rs|
  {
    var init := rs[..|rs| - 1];
    if p !in Ports(rs[|rs| - 1]) {
      AllPortsIn(init, p);
      var i :| 0 <= i < |init| && init[i].lo <= p <= init[i].hi;
      assert rs[i] == init[i];
    }
  }

  /** The ports of the last pair of a disjoint list are apart from those of the pairs before it. */
  lemma LastApart(rs: seq<Range>)
    requires rs != [] && Disjoint(rs)
    ensures Disjoint(rs[..|rs| - 1])
    ensures AllPorts(rs[..|rs| - 1]) !! Ports(rs[|rs| - 1])
  {
    var init, last := rs[..|rs| - 1], rs[|rs| - 1];
    forall i | 0 <= i < |init| ensures init[i] == rs[i] { }
    forall p | p in AllPorts(init) ensures p !in Ports(last) {
      AllPortsIn(init, p);
      var i :| 0 <= i < |init| && init[i].lo <= p <= init[i].hi;
      assert rs[i] == init[i];
    }
  }

  /**
   * For disjoint, well-formed pairs, `size` before wrapping is the number of distinct ports the
   * pairs name.
   */
  lemma {:induction false} TotalCountsPorts(rs: seq<Range>)
    requires Disjoint(rs)
    ensures Total(rs) == |AllPorts(rs)|
    decreases |rs|
  {
    if rs != [] {
      var init, last := rs[..|rs| - 1], rs[|rs| - 1];
      LastApart(rs);
      TotalCountsPorts(init);
      IntervalSize(last.lo, last.hi);
      assert AllPorts(rs) == AllPorts(init) + Ports(last);
      assert AllPorts(init) * Ports(last) == {};
    }
  }
}
