/** The decision in front of the pooling code: which embedding results are passed through, which are
    pooled and which are refused, and the norm that the backend options ask for. */
module Embeddings {
  import opened Decimals
  import opened Pooling
  import opened Strings
  import opened Wrappers

  const POOLING_BACKEND := "backend"
  const POOLING_MEAN := "mean"
  const POOLING_LAST := "last"
  const POOLING_DECAYED_MEAN := "decayed_mean"

  const DEFAULT_POOLING_HALF_LIFE_TOKENS := 256.0

  // EmbeddingLayout as it arrives on the wire: three declared values, and any other number.
  datatype Layout = Unspecified | Final | PerToken | Unknown(code: int)

  datatype EmbeddingResult = EmbeddingResult(embeddings: Vector, tokens: int, dim: int, layout: Layout)

  datatype PoolError =
    | PassesThroughPerToken | UnknownLayout | AlreadyFinal | LayoutNotDeclared  // compatibility errors
    | BadShape(e: ShapeError)
    | UnknownScheme

  predicate ShapeMatches(res: EmbeddingResult) {
    res.tokens > 0 && res.dim > 0 && |res.embeddings| == res.tokens * res.dim
  }

  function HalfLife(halfLife: real): (h: real)
    ensures h > 0.0
  {
    if halfLife <= 0.0 then DEFAULT_POOLING_HALF_LIFE_TOKENS else halfLife
  }

  /** A token that is one half-life earlier weighs half as much, the half-life being the configured number
      of tokens, or 256 if that is not positive. */
  lemma HalfLifeIsAsConfigured(halfLife: real, n: nat, exp2: real -> real, i: nat, k: nat)
    requires IsExp2(exp2) && i < k < n
    requires (k - i) as real == if halfLife > 0.0 then halfLife else 256.0
    ensures var w := DecayWeights(n, HalfLife(halfLife), exp2);
            w[k] == 2.0 * w[i] && w[i] > 0.0
  {
    DecayWeightsGrow(n, HalfLife(halfLife), exp2, i, k);
  }

  // The weights and the divisor by which a scheme combines the tokens.
  ghost predicate IsPooled(pooled: Vector, vecs: seq<Vector>, dim: nat, scheme: string, halfLife: real, exp2: real -> real)
    requires IsMatrix(vecs, dim)
  {
    && |pooled| == dim
    && (scheme == "mean" ==>
          forall j | 0 <= j < dim :: pooled[j] == Over(ColumnSum(vecs, Ones(|vecs|), j), |vecs| as real))
    && (scheme == "last" ==> pooled == vecs[|vecs| - 1])
    && (scheme == "decayed_mean" ==>
          var w := DecayWeights(|vecs|, HalfLife(halfLife), exp2);
          Sum(w) > 0.0 && forall j | 0 <= j < dim :: pooled[j] == Over(ColumnSum(vecs, w, j), Sum(w)))
  }

  // v is the normalised pooling of the rows of res.
  ghost predicate IsPoolingOf(v: Vector, res: EmbeddingResult, scheme: string, halfLife: real, embdNorm: int,
                              root: (real, nat) -> real, exp2: real -> real) {
    res.dim >= 0 &&
    exists vecs, pooled ::
      && IsMatrix(vecs, res.dim) && |vecs| == res.tokens && Flatten(vecs) == res.embeddings
      && IsPooled(pooled, vecs, res.dim, scheme, halfLife, exp2)
      && v == Normalised(pooled, embdNorm, root)
  }

  method PoolEmbeddingResult(res: EmbeddingResult, scheme: string, halfLife: real, embdNorm: int,
                             root: (real, nat) -> real, exp2: real -> real) returns (r: Result<Vector, PoolError>)
    requires IsExp2(exp2)
    ensures r.Success? <==> ShapeMatches(res) && scheme in {"mean", "last", "decayed_mean"}
    ensures r == Failure(UnknownScheme) <==> ShapeMatches(res) && scheme !in {"mean", "last", "decayed_mean"}
    ensures (r.Failure? && r.error.BadShape?) <==> !ShapeMatches(res)
    ensures r.Success? ==> |r.value| == res.dim && IsPoolingOf(r.value, res, scheme, halfLife, embdNorm, root, exp2)
  {
    var reshaped := ReshapeEmbeddings(res.embeddings, res.tokens, res.dim);
    if reshaped.Failure? {
      return Failure(BadShape(reshaped.error));
    }
    var vecs := reshaped.value;
    var pooled: array<real>;
    if scheme == POOLING_MEAN {
      pooled := PoolMean(vecs, res.dim);
    } else if scheme == POOLING_LAST {
      pooled := PoolLast(vecs, res.dim);
    } else if scheme == POOLING_DECAYED_MEAN {
      var h := halfLife;
      if h <= 0.0 {
        h := DEFAULT_POOLING_HALF_LIFE_TOKENS;
      }
      pooled := PoolDecayedMean(vecs, res.dim, h, exp2);
    } else {
      return Failure(UnknownScheme);
    }
    assert IsPooled(pooled[..], vecs, res.dim, scheme, halfLife, exp2);
    var out := NormalizeEmbedding(pooled[..], embdNorm, root);
    return Success(out[..]);
  }

  // ---------- embdNormalizeFromOptions ----------

  // strings.Cut at the first colon
  function ColonAt(s: string): (i: nat)
    ensures i <= |s|
    ensures i < |s| ==> s[i] == ':'
    ensures forall j | 0 <= j < i :: s[j] != ':'
  {
    if s == "" || s[0] == ':' then 0 else 1 + ColonAt(s[1..])
  }

  const MAX_INT := 0x7FFF_FFFF_FFFF_FFFF

  // strconv.Atoi: an optional sign and digits only, within 64 bits.
  function Atoi(s: string): Option<int> {
    var digits := if s != "" && s[0] in {'+', '-'} then s[1..] else s;
    var v := if s != "" && s[0] == '-' then -Value(digits) else Value(digits);
    if digits == "" || !AllDigits(digits) || v > MAX_INT || v < -MAX_INT - 1 then None else Some(v)
  }

  predicate IsNormName(name: string) {
    name == "embd_normalize" || name == "embedding_normalize"
  }

  // The norm that one backend option sets, if it sets one.
  function NormSetting(option: string): Option<int> {
    var i := ColonAt(option);
    if i == |option| || !IsNormName(option[..i]) then None
    else Atoi(TrimSpace(option[i + 1..]))
  }

  function NormSettings(options: seq<string>): (settings: seq<Option<int>>)
    ensures |settings| == |options| && forall i | 0 <= i < |options| :: settings[i] == NormSetting(options[i])
  {
    seq(|options|, i requires 0 <= i < |options| => NormSetting(options[i]))
  }

  function LastSetting(settings: seq<Option<int>>, default: int): int {
    if settings == [] then default
    else
      var n := settings[|settings| - 1];
      if n.Some? then n.value else LastSetting(settings[..|settings| - 1], default)
  }

  method ReadNormSetting(option: string) returns (n: Option<int>)
    ensures n == NormSetting(option)
  {
    var colon := ColonAt(option);
    if colon == |option| || (option[..colon] != "embd_normalize" && option[..colon] != "embedding_normalize") {
      return None;
    }
    n := Atoi(TrimSpace(option[colon + 1..]));
  }

  lemma LastSettingOneMore(settings: seq<Option<int>>, i: nat, default: int)
    requires i < |settings|
    ensures LastSetting(settings[..i + 1], default) ==
            if settings[i].Some? then settings[i].value else LastSetting(settings[..i], default)
  {
    assert settings[..i + 1][..i] == settings[..i];
  }

  method EmbdNormalizeFromOptions(options: seq<string>) returns (embdNorm: int)
    ensures embdNorm == LastSetting(NormSettings(options), 2)
  {
    embdNorm := 2;
    ghost var settings := NormSettings(options);
    for i := 0 to |options|
      invariant embdNorm == LastSetting(settings[..i], 2)
    {
      LastSettingOneMore(settings, i, 2);
      var n := ReadNormSetting(options[i]);
      if n.Some? {
        embdNorm := n.value;
      }
    }
    assert settings[..|options|] == settings;
  }

  /** The last option that sets a norm wins, wherever it stands, and without one the norm is 2. */
  lemma {:induction false} LastSettingWins(settings: seq<Option<int>>, last: nat, default: int)
    requires last <= |settings| && forall k | last <= k < |settings| :: settings[k].None?
    requires last > 0 ==> settings[last - 1].Some?
    ensures LastSetting(settings, default) == if last > 0 then settings[last - 1].value else default
  {
    if last < |settings| {
      LastSettingWins(settings[..|settings| - 1], last, default);
    }
  }

  lemma AtoiOfDigits(digits: string)
    requires digits != "" && AllDigits(digits) && Value(digits) <= MAX_INT
    ensures Atoi(digits) == Some(Value(digits))
    ensures Atoi(['-'] + digits) == Some(-Value(digits))
  {
    assert IsDigit(digits[0]);
    assert (['-'] + digits)[1..] == digits;
  }

  lemma NormNameHasNoColon(name: string)
    requires IsNormName(name)
    ensures forall i | 0 <= i < |name| :: name[i] != ':'
  {}

  lemma SettingIsNamed(name: string, rest: string)
    requires IsNormName(name)
    ensures NormSetting(name + ([':'] + rest)) == Atoi(TrimSpace(rest))
  {
    NormNameHasNoColon(name);
    ColonAfter(name, rest);
    var option := name + ([':'] + rest);
    assert option[..|name|] == name && option[|name| + 1..] == rest;
  }

  /** Either name followed by a written number, with or without white space around it, sets that number. */
  lemma WrittenNormIsRead(name: string, before: string, digits: string, negative: bool, after: string)
    requires name == "embd_normalize" || name == "embedding_normalize"
    requires digits != "" && AllDigits(digits) && Value(digits) <= MAX_INT
    requires TrimSpaceLeft(before) == "" && TrimSpaceRight(after) == ""
    ensures var number := if negative then ['-'] + digits else digits;
            NormSetting(name + ([':'] + (before + (number + after))))
            == Some(if negative then -Value(digits) else Value(digits))
  {
    var number := if negative then ['-'] + digits else digits;
    SettingIsNamed(name, before + (number + after));
    NumberStaysUntrimmed(digits, negative, after);
    LeftTrimmed(before, number + after);
    RightTrimmed(number, after);
    AtoiOfDigits(digits);
  }

  // t is a numeral within 64 bits for n.
  predicate IsNumeral(t: string, sign: string, digits: string, n: int) {
    && t == sign + digits && sign in {"", "+", "-"} && digits != "" && AllDigits(digits)
    && n == (if sign == "-" then -Value(digits) else Value(digits))
    && -0x8000_0000_0000_0000 <= n < 0x8000_0000_0000_0000
  }

  ghost predicate SetsNorm(option: string, name: string, rest: string, n: int) {
    && (name == "embd_normalize" || name == "embedding_normalize") && option == name + ([':'] + rest)
    && exists sign, digits :: IsNumeral(TrimSpace(rest), sign, digits, n)
  }

  lemma AtoiReads(t: string, n: int) returns (sign: string, digits: string)
    requires Atoi(t) == Some(n)
    ensures IsNumeral(t, sign, digits, n)
  {
    if t[0] in {'+', '-'} {
      sign, digits := [t[0]], t[1..];
    } else {
      sign, digits := "", t;
    }
  }

  lemma NumeralIsRead(t: string, sign: string, digits: string, n: int)
    requires IsNumeral(t, sign, digits, n)
    ensures Atoi(t) == Some(n)
  {
    assert IsDigit(digits[0]);
    if sign == "" {
      assert t == digits;
    } else {
      assert t[0] == sign[0] && t[1..] == digits;
    }
  }

  lemma SettingIsSplit(option: string) returns (name: string, rest: string)
    requires NormSetting(option).Some?
    ensures IsNormName(name) && option == name + ([':'] + rest) && Atoi(TrimSpace(rest)) == NormSetting(option)
  {
    var i := ColonAt(option);
    name, rest := option[..i], option[i + 1..];
    CutAt(option, i);
  }

  lemma CutAt(s: string, i: nat)
    requires i < |s|
    ensures s == s[..i] + ([s[i]] + s[i + 1..])
  {}

  lemma SettingSetsNorm(option: string, n: int) returns (name: string, rest: string)
    requires NormSetting(option) == Some(n)
    ensures SetsNorm(option, name, rest, n)
  {
    name, rest := SettingIsSplit(option);
    var sign, digits := AtoiReads(TrimSpace(rest), n);
  }

  /** An option sets the norm exactly when it has one of the two names and, after the first colon and but
      for white space, a numeral within 64 bits; every other option sets nothing. */
  lemma NormIsSetIff(option: string, n: int)
    ensures NormSetting(option) == Some(n) <==> exists name, rest :: SetsNorm(option, name, rest, n)
  {
    if NormSetting(option) == Some(n) {
      var name, rest := SettingSetsNorm(option, n);
    } else if name, rest :| SetsNorm(option, name, rest, n) {
      var sign, digits :| IsNumeral(TrimSpace(rest), sign, digits, n);
      SettingIsNamed(name, rest);
      NumeralIsRead(TrimSpace(rest), sign, digits, n);
      assert false;
    }
  }

  lemma NumberStaysUntrimmed(digits: string, negative: bool, after: string)
    requires digits != "" && AllDigits(digits)
    ensures var number := if negative then ['-'] + digits else digits;
            LeadingSpace(number + after) == 0 && TrailingSpace(number) == 0
  {
    var number := if negative then ['-'] + digits else digits;
    assert IsDigit(digits[0]) && IsDigit(digits[|digits| - 1]);
    assert number[|number| - 1] == digits[|digits| - 1];
    assert (number + after)[0] == number[0];
  }

  lemma {:induction false} ColonAfter(name: string, rest: string)
    requires forall i | 0 <= i < |name| :: name[i] != ':'
    ensures ColonAt(name + ([':'] + rest)) == |name|
  {
    var s := name + ([':'] + rest);
    if name != "" {
      assert s[1..] == name[1..] + ([':'] + rest);
      ColonAfter(name[1..], rest);
    }
  }

  /** Every call ends in an error, in the backend's vector untouched, or in a pooled vector of exactly
      dim numbers; pooling happens only on a declared per-token layout. */
  method FinishEmbeddingResult(res: EmbeddingResult, pooling: string, halfLifeTokens: int, options: seq<string>,
                               root: (real, nat) -> real, exp2: real -> real) returns (r: Result<Vector, PoolError>)
    requires IsExp2(exp2)
    ensures r.Success? <==>
              || (pooling in {"", "backend"} && (res.layout.Unspecified? || res.layout.Final?))
              || (pooling in {"mean", "last", "decayed_mean"} && res.layout.PerToken? && ShapeMatches(res))
    ensures r.Success? && pooling in {"", "backend"} ==> r.value == res.embeddings
    ensures r.Success? && pooling !in {"", "backend"} ==>
              |r.value| == res.dim &&
              IsPoolingOf(r.value, res, pooling, halfLifeTokens as real, LastSetting(NormSettings(options), 2), root, exp2)
    ensures (r.Failure? && r.error.BadShape?) <==>
              pooling !in {"", "backend"} && res.layout.PerToken? && !ShapeMatches(res)
    ensures r == Failure(UnknownScheme) <==>
              && pooling !in {"", "backend"} && res.layout.PerToken? && ShapeMatches(res)
              && pooling !in {"mean", "last", "decayed_mean"}
    ensures r == Failure(UnknownLayout) <==> res.layout.Unknown?
    ensures r == Failure(PassesThroughPerToken) <==> pooling in {"", "backend"} && res.layout.PerToken?
    ensures r == Failure(AlreadyFinal) <==> pooling !in {"", "backend"} && res.layout.Final?
    ensures r == Failure(LayoutNotDeclared) <==> pooling !in {"", "backend"} && res.layout.Unspecified?
  {
    if pooling == "" || pooling == POOLING_BACKEND {
      match res.layout {
        case Unspecified => return Success(res.embeddings);
        case Final => return Success(res.embeddings);
        case PerToken => return Failure(PassesThroughPerToken);
        case Unknown(_) => return Failure(UnknownLayout);
      }
    }
    match res.layout {
      case PerToken =>
      case Final => return Failure(AlreadyFinal);
      case Unspecified => return Failure(LayoutNotDeclared);
      case Unknown(_) => return Failure(UnknownLayout);
    }
    var embdNorm := EmbdNormalizeFromOptions(options);
    r := PoolEmbeddingResult(res, pooling, halfLifeTokens as real, embdNorm, root, exp2);
  }

  // The column sums that a scheme divides, and what it divides them by.
  ghost predicate IsUndivided(sums: Vector, total: real, vecs: seq<Vector>, dim: nat, scheme: string, halfLife: real, exp2: real -> real)
    requires IsMatrix(vecs, dim)
  {
    && |sums| == dim && (scheme == "mean" || scheme == "decayed_mean")
    && var w := if scheme == "mean" then Ones(|vecs|) else DecayWeights(|vecs|, HalfLife(halfLife), exp2);
       total == Sum(w) && forall j | 0 <= j < dim :: sums[j] == ColumnSum(vecs, w, j)
  }

  /** With any embd_normalize of 0 or more the two mean schemes could leave their division out: the
      final embedding is the normalised column sums. */
  lemma MeansNeedNoDivision(pooled: Vector, sums: Vector, total: real, vecs: seq<Vector>, dim: nat, scheme: string,
                            halfLife: real, embdNorm: int, root: (real, nat) -> real, exp2: real -> real)
    requires IsMatrix(vecs, dim) && IsRoot(root) && IsExp2(exp2) && embdNorm >= 0
    requires IsPooled(pooled, vecs, dim, scheme, halfLife, exp2)
    requires IsUndivided(sums, total, vecs, dim, scheme, halfLife, exp2)
    ensures Normalised(pooled, embdNorm, root) == Normalised(sums, embdNorm, root)
  {
    SumOfOnes(|vecs|);
    assert pooled == seq(|sums|, i requires 0 <= i < |sums| => Over(sums[i], total));
    MeanDivisionIsIrrelevant(sums, total, embdNorm, root);
  }
}
