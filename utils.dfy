/**
 * The deterministic helpers of the GrowScratch client's `Utils` object:
 * log-level gating, retry with exponential backoff, UUID generation,
 * address shortening, query-string parsing, prize lookup and error
 * formatting. Randomness, timers and URI decoding are parameters.
 */
module Utils {
  import opened Strings
  import Config

  datatype Option<T> = None | Some(value: T)

  // ---------------------------------------------------------------------
  // Logger gating
  // ---------------------------------------------------------------------

  /** The four logger methods. */
  datatype Severity = Debug | Info | Warn | Error

  /** The configured level names, from most to least verbose. */
  const LevelNames: seq<string> := ["debug", "info", "warn", "error"]

  /** Position of a severity in the verbosity order (0 is most verbose). */
  function Rank(m: Severity): nat
  {
    match m
    case Debug => 0
    case Info => 1
    case Warn => 2
    case Error => 3
  }

  /** Position of a known level name in `LevelNames`. */
  function LevelRank(level: string): (k: nat)
    requires level in LevelNames
    ensures k < |LevelNames| && LevelNames[k] == level
  {
    if level == "debug" then 0
    else if level == "info" then 1
    else if level == "warn" then 2
    else 3
  }

  /** The literal list each logger method tests `LOG_LEVEL` against. */
  function AdmittingLevels(m: Severity): seq<string>
  {
    match m
    case Debug => ["debug"]
    case Info => ["debug", "info"]
    case Warn => ["debug", "info", "warn"]
    case Error => []
  }

  /**
   * Whether the logger method for `m` writes to the console, given the
   * logging switch and the configured level. `error` only looks at the
   * switch; the others look the level up in their own list. Against a known
   * level name this is a threshold: a message is written exactly when it is
   * at least as severe as the level; an unknown level lets only errors out.
   */
  predicate IsEmitted(m: Severity, enabled: bool, level: string)
    ensures IsEmitted(m, enabled, level) <==>
              enabled && (m == Error || (level in LevelNames && LevelRank(level) <= Rank(m)))
  {
    enabled && (m == Error || level in AdmittingLevels(m))
  }

  /** A level that lets a message through lets every more severe one through. */
  lemma GatingMonotone(m: Severity, m': Severity, enabled: bool, level: string)
    requires Rank(m) <= Rank(m')
    requires IsEmitted(m, enabled, level)
    ensures IsEmitted(m', enabled, level)
  {
  }

  /** With the shipped settings, debug output is suppressed and the rest is written. */
  lemma ConfiguredGating()
    ensures !IsEmitted(Debug, Config.EnableLogging, Config.LogLevel)
    ensures IsEmitted(Info, Config.EnableLogging, Config.LogLevel)
    ensures IsEmitted(Warn, Config.EnableLogging, Config.LogLevel)
    ensures IsEmitted(Error, Config.EnableLogging, Config.LogLevel)
  {
  }

  // ---------------------------------------------------------------------
  // Retry with exponential backoff
  // ---------------------------------------------------------------------

  /** What one call of the wrapped operation does: resolve or throw. */
  datatype Attempt<T, E> = Success(value: T) | Failure(error: E)

  /** How `retryWithBackoff` settles: a value, a thrown error, or `undefined`. */
  datatype Settled<T, E> = Returned(value: T) | Raised(error: E) | Undefined

  function Pow2(i: nat): (p: nat)
    ensures p >= 1
  {
    if i == 0 then 1 else 2 * Pow2(i - 1)
  }

  /** The first `k` sleeps of the schedule: `baseDelay * 2^i` for i = 0 .. k-1. */
  function Backoff(baseDelay: int, k: nat): (delays: seq<int>)
    ensures |delays| == k
    ensures forall i :: 0 <= i < k ==> delays[i] == baseDelay * Pow2(i)
  {
    if k == 0 then [] else Backoff(baseDelay, k - 1) + [baseDelay * Pow2(k - 1)]
  }

  function Sum(s: seq<int>): int
  {
    if s == [] then 0 else Sum(s[..|s| - 1]) + s[|s| - 1]
  }

  /** Each sleep is twice the one before it. */
  lemma BackoffDoubles(baseDelay: int, k: nat, i: nat)
    requires 0 < i < k
    ensures Backoff(baseDelay, k)[i] == 2 * Backoff(baseDelay, k)[i - 1]
  {
  }

  lemma SumSnoc(s: seq<int>, x: int)
    ensures Sum(s + [x]) == Sum(s) + x
  {
    assert (s + [x])[..|s|] == s;
  }

  lemma DoubleLessOne(b: int, p: int, q: int)
    requires q == 2 * p
    ensures b * q - b == (b * p - b) + b * p
  {
  }

  /** After k failed attempts the client has slept `baseDelay * (2^k - 1)` in all. */
  lemma {:induction false} BackoffTotal(baseDelay: int, k: nat)
    ensures Sum(Backoff(baseDelay, k)) == baseDelay * Pow2(k) - baseDelay
  {
    if k == 0 {
      assert Backoff(baseDelay, 0) == [];
    } else {
      BackoffTotal(baseDelay, k - 1);
      var p := Pow2(k - 1);
      var prev := Backoff(baseDelay, k - 1);
      assert Backoff(baseDelay, k) == prev + [baseDelay * p];
      SumSnoc(prev, baseDelay * p);
      DoubleLessOne(baseDelay, p, Pow2(k));
    }
  }

  /**
   * `retryWithBackoff(fn, maxRetries, baseDelay)`. Call `j` (0-based) of the
   * wrapped operation yields `fn(j)`; instead of sleeping, the method records
   * each delay in `delays`. It reports how many calls it made.
   */
  method RetryWithBackoff<T, E>(fn: nat -> Attempt<T, E>, maxRetries: int := 3, baseDelay: int := 1000)
    returns (result: Settled<T, E>, calls: nat, delays: seq<int>)
    // A non-positive bound never enters the loop: no call, `undefined`.
    ensures maxRetries <= 0 ==> result == Undefined && calls == 0 && delays == []
    // Otherwise it makes between one and `maxRetries` calls and settles.
    ensures maxRetries > 0 ==> 1 <= calls <= maxRetries && !result.Undefined?
    // Every call but the last one failed.
    ensures forall j :: 0 <= j < calls - 1 ==> fn(j).Failure?
    // A value is the one the last call resolved with ...
    ensures result.Returned? ==> fn(calls - 1) == Success(result.value)
    // ... an error is the one the final permitted call threw, unchanged.
    ensures result.Raised? ==> calls == maxRetries && fn(calls - 1) == Failure(result.error)
    // One sleep between consecutive calls, none after the last.
    ensures delays == Backoff(baseDelay, if calls == 0 then 0 else calls - 1)
    // The outcome is the reference one: the first success, else the last error.
    ensures result == ExpectedSettlement(fn, maxRetries, 0)
  {
    result, calls, delays := Undefined, 0, [];
    var i := 0;
    while i < maxRetries
      invariant 0 <= i && (maxRetries > 0 ==> i < maxRetries) && (maxRetries <= 0 ==> i == 0)
      invariant calls == i && result == Undefined
      invariant forall j :: 0 <= j < i ==> fn(j).Failure?
      invariant delays == Backoff(baseDelay, i)
    {
      var outcome := fn(i);
      calls := calls + 1;
      match outcome {
        case Success(v) =>
          result := Returned(v);
          SettlementIsFirstSuccess(fn, maxRetries, i);
          return;
        case Failure(e) =>
          if i == maxRetries - 1 {
            result := Raised(e);
            SettlementIsFirstSuccess(fn, maxRetries, i);
            return;
          }
          delays := delays + [baseDelay * Pow2(i)];
      }
      i := i + 1;
    }
  }

  /** The settled outcome as a function of the call results. */
  function ExpectedSettlement<T, E>(fn: nat -> Attempt<T, E>, maxRetries: int, from: nat): Settled<T, E>
    decreases maxRetries - from
  {
    if from >= maxRetries then Undefined
    else match fn(from)
      case Success(v) => Returned(v)
      case Failure(e) => if from == maxRetries - 1 then Raised(e) else ExpectedSettlement(fn, maxRetries, from + 1)
  }

  /**
   * The first success among the first `maxRetries` calls decides the value;
   * when there is none the last call's error is raised.
   */
  lemma {:induction false} SettlementIsFirstSuccess<T, E>(fn: nat -> Attempt<T, E>, maxRetries: int, k: nat)
    requires k < maxRetries
    requires forall j :: 0 <= j < k ==> fn(j).Failure?
    ensures fn(k).Success? ==> ExpectedSettlement(fn, maxRetries, 0) == Returned(fn(k).value)
    ensures fn(k).Failure? && k == maxRetries - 1 ==> ExpectedSettlement(fn, maxRetries, 0) == Raised(fn(k).error)
  {
    SettlementFrom(fn, maxRetries, 0, k);
  }

  lemma {:induction false} SettlementFrom<T, E>(fn: nat -> Attempt<T, E>, maxRetries: int, from: nat, k: nat)
    requires from <= k < maxRetries
    requires forall j :: from <= j < k ==> fn(j).Failure?
    ensures fn(k).Success? ==> ExpectedSettlement(fn, maxRetries, from) == Returned(fn(k).value)
    ensures fn(k).Failure? && k == maxRetries - 1 ==> ExpectedSettlement(fn, maxRetries, from) == Raised(fn(k).error)
    decreases k - from
  {
    if from < k {
      assert fn(from).Failure?;
      SettlementFrom(fn, maxRetries, from + 1, k);
    }
  }

  /** With the defaults, a call that keeps failing sleeps 1000 ms and then 2000 ms. */
  lemma DefaultSchedule()
    ensures Backoff(1000, 2) == [1000, 2000]
    ensures Sum(Backoff(1000, 2)) == 3000
  {
  }

  // ---------------------------------------------------------------------
  // UUID v4
  // ---------------------------------------------------------------------

  /** `Math.random() * 16 | 0`: an integer in 0 .. 15. */
  type Nibble = n: int | 0 <= n < 16

  /** `n` placeholder characters `x`. */
  function Run(n: nat): (s: string)
    ensures |s| == n && forall i :: 0 <= i < n ==> s[i] == 'x'
  {
    seq(n, _ => 'x')
  }

  /** The template `generateUUID` fills, assembled from its runs of `x`. */
  const UuidTemplate: string := Run(8) + "-" + Run(4) + "-4" + Run(3) + "-y" + Run(3) + "-" + Run(12)

  /** It is the template literal of the source. */
  lemma UuidTemplateLiteral()
    ensures UuidTemplate == "xxxxxxxx-xxxx-4xxx-yxxx-xxxxxxxxxxxx"
  {
  }

  const HexDigits: string := "0123456789abcdef"

  /** `v.toString(16)` for a nibble: one lower-case hexadecimal digit. */
  function HexDigit(n: Nibble): (c: char)
    ensures c in HexDigits && c == HexDigits[n]
  {
    if n < 10 then ('0' as int + n) as char else ('a' as int + n - 10) as char
  }

  /** The value of a lower-case hexadecimal digit. */
  function HexValue(c: char): (n: int)
    ensures c in HexDigits ==> 0 <= n < 16 && HexDigits[n] == c
  {
    if '0' <= c <= '9' then c as int - '0' as int
    else if 'a' <= c <= 'f' then c as int - 'a' as int + 10
    else -1
  }

  /** `r & 0x3 | 0x8`: the variant nibble of section 4.1.1 of RFC 4122. */
  function Variant(r: Nibble): (v: Nibble)
    ensures v == 8 + r % 4
  {
    ((r as bv8 & 3) | 8) as int
  }

  predicate IsPlaceholder(c: char)
  {
    c == 'x' || c == 'y'
  }

  /** The number of `x` and `y` characters in a template. */
  function Placeholders(t: string): nat
  {
    if t == [] then 0 else (if IsPlaceholder(t[0]) then 1 else 0) + Placeholders(t[1..])
  }

  /**
   * `t.replace(/[xy]/g, ...)`: every placeholder, left to right, takes the
   * next nibble; `x` becomes its digit and `y` the digit of its variant.
   */
  function FillTemplate(t: string, nibbles: seq<Nibble>): (u: string)
    requires |nibbles| == Placeholders(t)
    ensures |u| == |t|
  {
    if t == [] then []
    else if t[0] == 'x' then [HexDigit(nibbles[0])] + FillTemplate(t[1..], nibbles[1..])
    else if t[0] == 'y' then [HexDigit(Variant(nibbles[0]))] + FillTemplate(t[1..], nibbles[1..])
    else [t[0]] + FillTemplate(t[1..], nibbles)
  }

  lemma {:induction false} PlaceholdersSnoc(t: string, c: char)
    ensures Placeholders(t + [c]) == Placeholders(t) + (if IsPlaceholder(c) then 1 else 0)
  {
    if t != [] {
      assert (t + [c])[1..] == t[1..] + [c];
      PlaceholdersSnoc(t[1..], c);
    }
  }

  /** Character `p` of a filled template, in terms of the template alone. */
  lemma {:induction false} FillTemplateAt(t: string, nibbles: seq<Nibble>, p: nat)
    requires |nibbles| == Placeholders(t)
    requires p < |t|
    ensures Placeholders(t[..p]) < |nibbles| || !IsPlaceholder(t[p])
    ensures FillTemplate(t, nibbles)[p] ==
              if t[p] == 'x' then HexDigit(nibbles[Placeholders(t[..p])])
              else if t[p] == 'y' then HexDigit(Variant(nibbles[Placeholders(t[..p])]))
              else t[p]
  {
    if p > 0 {
      var k := if IsPlaceholder(t[0]) then 1 else 0;
      assert t[..p][1..] == t[1..][..p - 1];
      FillTemplateAt(t[1..], nibbles[k..], p - 1);
    }
  }

  /** The template character at position `p`. */
  function TemplateAt(p: nat): char
  {
    if p == 8 || p == 13 || p == 18 || p == 23 then '-'
    else if p == 14 then '4'
    else if p == 19 then 'y'
    else 'x'
  }

  /**
   * The input nibble that position `p` of a UUID is drawn from: `p` less the
   * fixed characters (the hyphens and the version digit) before it.
   */
  function NibbleIndex(p: nat): nat
  {
    p - (if p > 8 then 1 else 0) - (if p > 13 then 1 else 0) - (if p > 14 then 1 else 0)
      - (if p > 18 then 1 else 0) - (if p > 23 then 1 else 0)
  }

  lemma {:induction false} TemplateLayout(p: nat)
    requires p <= |UuidTemplate|
    ensures |UuidTemplate| == 36
    ensures p < 36 ==> UuidTemplate[p] == TemplateAt(p)
    ensures Placeholders(UuidTemplate[..p]) == NibbleIndex(p)
  {
    if p > 0 {
      TemplateLayout(p - 1);
      assert UuidTemplate[..p] == UuidTemplate[..p - 1] + [UuidTemplate[p - 1]];
      PlaceholdersSnoc(UuidTemplate[..p - 1], UuidTemplate[p - 1]);
    }
  }

  /**
   * `generateUUID()`, with the 31 values `Math.random` supplies as input:
   * 36 characters, hyphens at 8, 13, 18 and 23, version digit 4 at 14,
   * a variant digit in 8..b at 19, and the nibbles in order as lower-case
   * hexadecimal digits everywhere else.
   */
  function GenerateUUID(nibbles: seq<Nibble>): (u: string)
    requires |nibbles| == 31
    ensures |u| == 36
    ensures u[8] == '-' && u[13] == '-' && u[18] == '-' && u[23] == '-'
    ensures u[14] == '4'
    ensures u[19] in "89ab" && u[19] == HexDigit(Variant(nibbles[15]))
    ensures forall p :: 0 <= p < 36 && TemplateAt(p) == 'x' ==>
              NibbleIndex(p) < 31 && u[p] == HexDigit(nibbles[NibbleIndex(p)])
  {
    UuidAt(nibbles, 0);
    var u := FillTemplate(UuidTemplate, nibbles);
    UuidAt(nibbles, 8); UuidAt(nibbles, 13); UuidAt(nibbles, 18); UuidAt(nibbles, 23);
    UuidAt(nibbles, 14); UuidAt(nibbles, 19);
    VariantDigit(nibbles[15]);
    assert forall p :: 0 <= p < 36 && TemplateAt(p) == 'x' ==>
             NibbleIndex(p) < 31 && u[p] == HexDigit(nibbles[NibbleIndex(p)]) by {
      forall p | 0 <= p < 36 && TemplateAt(p) == 'x'
        ensures NibbleIndex(p) < 31 && u[p] == HexDigit(nibbles[NibbleIndex(p)])
      {
        UuidAt(nibbles, p);
      }
    }
    u
  }

  /** Character `p` of a UUID, from the template layout. */
  lemma UuidAt(nibbles: seq<Nibble>, p: nat)
    requires |nibbles| == 31 && p < 36
    ensures |UuidTemplate| == 36 && Placeholders(UuidTemplate) == 31
    ensures TemplateAt(p) == 'x' ==> FillTemplate(UuidTemplate, nibbles)[p] == HexDigit(nibbles[NibbleIndex(p)])
    ensures TemplateAt(p) == 'y' ==> FillTemplate(UuidTemplate, nibbles)[p] == HexDigit(Variant(nibbles[NibbleIndex(p)]))
    ensures !IsPlaceholder(TemplateAt(p)) ==> FillTemplate(UuidTemplate, nibbles)[p] == TemplateAt(p)
  {
    TemplateLayout(36);
    assert UuidTemplate[..36] == UuidTemplate;
    TemplateLayout(p);
    FillTemplateAt(UuidTemplate, nibbles, p);
  }

  /** The variant digit is one of 8, 9, a and b. */
  lemma VariantDigit(r: Nibble)
    ensures HexDigit(Variant(r)) in "89ab"
  {
  }

  /** The nibbles are consumed in order: later positions take later nibbles. */
  lemma NibblesInOrder(p: nat, q: nat)
    requires p < q < 36
    requires TemplateAt(p) in "xy" && TemplateAt(q) in "xy"
    ensures NibbleIndex(p) < NibbleIndex(q)
  {
  }

  /** Every `x` nibble can be read back from the UUID text. */
  lemma UuidRecoversNibbles(nibbles: seq<Nibble>, p: nat)
    requires |nibbles| == 31
    requires p < 36 && TemplateAt(p) == 'x'
    ensures HexValue(GenerateUUID(nibbles)[p]) == nibbles[NibbleIndex(p)]
  {
  }

  // ---------------------------------------------------------------------
  // Address shortening
  // ---------------------------------------------------------------------

  /**
   * `shortenAddress` as the code is written: a missing or empty address gives
   * "", one that fits in `startChars + endChars` is kept, and a longer one is
   * cut to its first `startChars` characters, "..." and `address.slice(-endChars)`.
   * For `endChars == 0` that slice is `slice(-0)`, the WHOLE address.
   */
  function ShortenAddressAsWritten(address: Option<string>, startChars: nat := 6, endChars: nat := 4): (r: string)
    ensures address == None || address == Some("") ==> r == ""
    ensures address.Some? && 0 < |address.value| <= startChars + endChars ==> r == address.value
    ensures address.Some? && |address.value| > startChars + endChars ==>
              var a := address.value;
              |r| == startChars + 3 + (if endChars == 0 then |a| else endChars) &&
              r[..startChars] == a[..startChars] && r[startChars..startChars + 3] == "..." &&
              r[startChars + 3..] == (if endChars == 0 then a else a[|a| - endChars..])
  {
    match address
    case None => ""
    case Some(a) =>
      if a == "" then ""
      else if |a| <= startChars + endChars then a
      else a[..startChars] + "..." + (if endChars == 0 then a else a[|a| - endChars..])
  }

  /** With no suffix asked for, the as-written helper appends the whole address. */
  lemma ZeroSuffixAppendsWholeAddress()
    ensures ShortenAddressAsWritten(Some("abcdefgh"), 2, 0) == "ab...abcdefgh"
    ensures |ShortenAddressAsWritten(Some("abcdefgh"), 2, 0)| > |"abcdefgh"|
    ensures ShortenAddressAsWritten(Some("ab...abcdefgh"), 2, 0) != "ab...abcdefgh"
  {
  }

  /**
   * `shortenAddress` with `slice(-endChars)` read as "the last `endChars`
   * characters" for every `endChars`, including 0.
   */
  function ShortenAddress(address: Option<string>, startChars: nat := 6, endChars: nat := 4): (r: string)
    ensures address == None || address == Some("") ==> r == ""
    ensures address.Some? && 0 < |address.value| <= startChars + endChars ==> r == address.value
    ensures address.Some? && |address.value| > startChars + endChars ==>
              var a := address.value;
              |r| == startChars + 3 + endChars &&
              r[..startChars] == a[..startChars] && r[startChars..startChars + 3] == "..." &&
              r[startChars + 3..] == a[|a| - endChars..]
  {
    match address
    case None => ""
    case Some(a) =>
      if a == "" then ""
      else if |a| <= startChars + endChars then a
      else a[..startChars] + "..." + a[|a| - endChars..]
  }

  /** The two agree whenever a suffix is asked for. */
  lemma ShortenAgreesWithAsWritten(address: Option<string>, startChars: nat, endChars: nat)
    requires endChars > 0
    ensures ShortenAddress(address, startChars, endChars) == ShortenAddressAsWritten(address, startChars, endChars)
  {
  }

  /** Shortening an already shortened address changes nothing. */
  lemma ShortenIdempotent(address: Option<string>, startChars: nat, endChars: nat)
    ensures var r := ShortenAddress(address, startChars, endChars);
            ShortenAddress(Some(r), startChars, endChars) == r
  {
  }

  /** With the default widths a long address shows as 13 characters. */
  lemma DefaultShortenedLength(a: string)
    requires |a| > 10
    ensures |ShortenAddress(Some(a))| == 13
  {
  }

  // ---------------------------------------------------------------------
  // Query-string parsing
  // ---------------------------------------------------------------------

  /** `url.split('?')[1]`: the text between the first and second `?`, if any. */
  function QueryString(url: string): (q: Option<string>)
    ensures q.None? <==> '?' !in url
    ensures q.Some? ==> '?' !in q.value
  {
    var parts := Split(url, '?');
    if |parts| >= 2 then Some(parts[1]) else None
  }

  /** `param.split('=')[0]`: the text before the first `=`. */
  function ParamKey(piece: string): (k: string)
    ensures '=' !in k
  {
    Split(piece, '=')[0]
  }

  /** `param.split('=')[1] || ''`: the text between the first and second `=`. */
  function ParamValue(piece: string): (v: string)
    ensures '=' !in v
    ensures '=' !in piece ==> v == ""
  {
    var parts := Split(piece, '=');
    if |parts| >= 2 then parts[1] else ""
  }

  /** The key/value object after assigning the pieces in order, later ones overwriting. */
  function AssignParams(pieces: seq<string>, decode: string -> string): map<string, string>
  {
    if pieces == [] then map[]
    else
      var last := pieces[|pieces| - 1];
      AssignParams(pieces[..|pieces| - 1], decode)[decode(ParamKey(last)) := decode(ParamValue(last))]
  }

  /** The object `parseQueryParams(url)` returns, with `decodeURIComponent` as `decode`. */
  function QueryParams(url: string, decode: string -> string): map<string, string>
  {
    match QueryString(url)
    case Some(q) => if q == "" then map[] else AssignParams(Split(q, '&'), decode)
    case None => map[]
  }

  /**
   * `parseQueryParams(url)`: split the query string on `&` and assign each
   * piece's decoded key and value into the result object, in order.
   */
  method ParseQueryParams(url: string, decode: string -> string) returns (params: map<string, string>)
    ensures params == QueryParams(url, decode)
  {
    params := map[];
    var queryString := QueryString(url);
    if queryString.Some? && queryString.value != "" {
      var pieces := Split(queryString.value, '&');
      var i := 0;
      while i < |pieces|
        invariant 0 <= i <= |pieces|
        invariant params == AssignParams(pieces[..i], decode)
      {
        var param := pieces[i];
        assert pieces[..i + 1][..i] == pieces[..i];
        params := params[decode(ParamKey(param)) := decode(ParamValue(param))];
        i := i + 1;
      }
      assert pieces[..|pieces|] == pieces;
    }
  }

  /** A URL with no query string, or an empty one, has no parameters. */
  lemma NoQueryNoParams(url: string, decode: string -> string)
    requires '?' !in url || QueryString(url) == Some("")
    ensures QueryParams(url, decode) == map[]
  {
  }

  /**
   * A key is present exactly when some piece decodes to it, and its value is
   * the decoded value of the LAST such piece.
   */
  lemma {:induction false} LastDuplicateWins(pieces: seq<string>, decode: string -> string, k: string)
    ensures k in AssignParams(pieces, decode) <==>
              exists i :: 0 <= i < |pieces| && decode(ParamKey(pieces[i])) == k
    ensures forall i :: 0 <= i < |pieces| && decode(ParamKey(pieces[i])) == k &&
                        (forall j :: i < j < |pieces| ==> decode(ParamKey(pieces[j])) != k) ==>
              AssignParams(pieces, decode)[k] == decode(ParamValue(pieces[i]))
  {
    if pieces != [] {
      var init := pieces[..|pieces| - 1];
      LastDuplicateWins(init, decode, k);
      forall i | 0 <= i < |init| ensures init[i] == pieces[i] { }
    }
  }

  /** A piece `key=value` without further `=` splits into exactly that key and value. */
  lemma PieceRoundTrip(key: string, value: string)
    requires '=' !in key && '=' !in value
    ensures ParamKey(key + "=" + value) == key
    ensures ParamValue(key + "=" + value) == value
    ensures ParamKey(key) == key && ParamValue(key) == ""
  {
  }

  /** Only the text between the first and second `?` is read as the query. */
  lemma QueryBetweenMarks(base: string, query: string, rest: string)
    requires '?' !in base && '?' !in query
    ensures QueryString(base + "?" + query) == Some(query)
    ensures QueryString(base + "?" + query + "?" + rest) == Some(query)
  {
    SplitJoin([base, query], '?');
    var tail := query + "?" + rest;
    IndexOfPrefix(base, tail, '?');
    IndexOfPrefix(query, rest, '?');
    var url := base + "?" + query + "?" + rest;
    assert url == base + ['?'] + tail;
    assert url[|base| + 1..] == tail;
    SplitSecond(url, '?');
    assert tail[..|query|] == query;
  }

  // ---------------------------------------------------------------------
  // Prize lookup
  // ---------------------------------------------------------------------

  /**
   * A JavaScript value as far as `===` against a prize id can tell: an
   * integral number, a string, or anything else (non-integral numbers,
   * booleans, null, undefined, objects).
   */
  datatype JsValue = Number(n: int) | Text(s: string) | OtherValue

  /** `id === v` for a numeric id. */
  predicate StrictlyEquals(id: int, v: JsValue)
  {
    v.Number? && v.n == id
  }

  /** `Array.prototype.find`: the index of the first prize whose id is `v`. */
  function FindPrizeIndex(prizes: seq<Config.Prize>, v: JsValue): (r: Option<nat>)
    ensures r.None? <==> forall i :: 0 <= i < |prizes| ==> !StrictlyEquals(prizes[i].id, v)
    ensures r.Some? ==> r.value < |prizes| && StrictlyEquals(prizes[r.value].id, v) &&
                        forall j :: 0 <= j < r.value ==> !StrictlyEquals(prizes[j].id, v)
  {
    if prizes == [] then None
    else if StrictlyEquals(prizes[0].id, v) then Some(0)
    else match FindPrizeIndex(prizes[1..], v)
      case Some(i) => Some(i + 1)
      case None => None
  }

  /** `getPrizeById(prizeId)` over the configured prize table. */
  function GetPrizeById(prizeId: JsValue): (r: Option<Config.Prize>)
    ensures r.Some? <==> prizeId.Number? && 1 <= prizeId.n <= 9
    ensures r.Some? ==> r.value.id == prizeId.n && r.value == Config.Prizes[prizeId.n - 1]
  {
    Config.PrizeIdsAreOneToNine();
    match FindPrizeIndex(Config.Prizes, prizeId)
    case Some(i) => Some(Config.Prizes[i])
    case None => None
  }

  /** Strict equality: the string "3" finds no prize although the number 3 does. */
  lemma LookupIsStrict()
    ensures GetPrizeById(Number(3)) == Some(Config.Prizes[2])
    ensures GetPrizeById(Text("3")) == None
  {
  }

  // ---------------------------------------------------------------------
  // Error formatting
  // ---------------------------------------------------------------------

  const UnknownErrorMessage: string := "Si è verificato un errore sconosciuto"

  /**
   * What `formatError` can be given: a string, an object whose `message` is
   * a string or absent, or null/undefined. A number or boolean reads
   * `message` as `undefined`, so it is `ObjectError(None)`.
   */
  datatype ErrorValue = StringError(text: string) | ObjectError(message: Option<string>) | Nullish

  /**
   * `formatError(error)`: a string is its own message; an object gives its
   * non-empty `message` or the generic message; null or undefined makes the
   * `.message` read throw, shown as `None`.
   */
  function FormatError(error: ErrorValue): (r: Option<string>)
    ensures r.None? <==> error.Nullish?
    ensures error.StringError? ==> r == Some(error.text)
    ensures error.ObjectError? ==>
              (r.Some? && r.value != "" && (r.value == UnknownErrorMessage || Some(r.value) == error.message))
    ensures error.ObjectError? && error.message.Some? && error.message.value != "" ==>
              r == error.message
  {
    match error
    case StringError(s) => Some(s)
    case ObjectError(m) =>
      if m.Some? && m.value != "" then Some(m.value) else Some(UnknownErrorMessage)
    case Nullish => None
  }

  /** Only an empty string error yields an empty text. */
  lemma FormatErrorEmptyOnlyFromEmptyString(error: ErrorValue)
    ensures FormatError(error) == Some("") <==> error == StringError("")
  {
  }
}
