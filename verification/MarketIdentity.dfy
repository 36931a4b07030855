/**
 Market keys and identity bindings (backend/app/models/market_identity.py): how a key is
 normalized, which terms a binding's fingerprint covers, and what a verified binding must show.
 */
module MarketIdentity {
  import opened Wrappers

  // ---------- strings ----------

  predicate IsSpace(c: char) { c in " \t\n\r" || '\U{0B}' <= c <= '\U{0C}' || '\U{1C}' <= c <= '\U{1F}' }

  function LowerChar(c: char): char {
    if 'A' <= c <= 'Z' then (c as int + 32) as char else c
  }

  function Lower(s: string): string {
    if s == [] then [] else [LowerChar(s[0])] + Lower(s[1..])
  }

  function UpperChar(c: char): char {
    if 'a' <= c <= 'z' then (c as int - 32) as char else c
  }

  function Upper(s: string): string {
    if s == [] then [] else [UpperChar(s[0])] + Upper(s[1..])
  }

  function StripLeft(s: string): string {
    if s != [] && IsSpace(s[0]) then StripLeft(s[1..]) else s
  }

  function StripRight(s: string): string {
    if s != [] && IsSpace(s[|s| - 1]) then StripRight(s[..|s| - 1]) else s
  }

  function Strip(s: string): string { StripRight(StripLeft(s)) }

  /** What comes before the first colon. */
  function Prefix(s: string): string {
    if s == [] || s[0] == ':' then [] else [s[0]] + Prefix(s[1..])
  }

  predicate Tidy(s: string) {
    s == [] || (!IsSpace(s[0]) && !IsSpace(s[|s| - 1]))
  }

  lemma {:induction false} StripLeftTidies(s: string)
    ensures StripLeft(s) == [] || !IsSpace(StripLeft(s)[0])
  {
    if s != [] && IsSpace(s[0]) { StripLeftTidies(s[1..]); }
  }

  lemma {:induction false} StripRightTidies(s: string)
    ensures StripRight(s) == [] || !IsSpace(StripRight(s)[|StripRight(s)| - 1])
    ensures StripRight(s) != [] ==> s != [] && StripRight(s)[0] == s[0]
  {
    if s != [] && IsSpace(s[|s| - 1]) { StripRightTidies(s[..|s| - 1]); }
  }

  lemma StripTidies(s: string)
    ensures Tidy(Strip(s))
  {
    StripLeftTidies(s);
    StripRightTidies(StripLeft(s));
  }

  lemma StripOfTidy(s: string)
    ensures Tidy(s) <==> Strip(s) == s
  {
    if Tidy(s) {
      assert StripLeft(s) == s;
    } else {
      StripTidies(s);
    }
  }

  lemma {:induction false} LowerFacts(s: string)
    ensures |Lower(s)| == |s| && Lower(Lower(s)) == Lower(s)
    ensures forall i :: 0 <= i < |s| ==> Lower(s)[i] == LowerChar(s[i]) && (IsSpace(Lower(s)[i]) <==> IsSpace(s[i]))
  {
    if s != [] {
      LowerFacts(s[1..]);
      assert Lower(s)[1..] == Lower(s[1..]);
    }
  }

  // ---------- market keys ----------

  datatype MarketType = Spot | Future

  datatype MarketKey = MarketKey(exchange: string, marketType: MarketType, dex: Option<string>, rawSymbol: string)

  const HYPERLIQUID := "hyperliquid"
  const MAIN := "main"
  const MAX_EXCHANGE := 64
  const MAX_SYMBOL := 160

  datatype KeyError = BadLength | DexConflict | DexNotAllowed | Empty

  predicate IsPerpetual(k: MarketKey) { k.exchange == HYPERLIQUID && k.marketType.Future? }

  /** The DEX a Hyperliquid symbol names. */
  function DexOf(raw: string): string {
    if ':' in raw then Lower(Prefix(raw)) else MAIN
  }

  /** The validator of a key, run whenever one is built or read back from JSON. */
  function Normalize(k: MarketKey): Result<MarketKey, KeyError> {
    if !(1 <= |k.exchange| <= MAX_EXCHANGE) || !(1 <= |k.rawSymbol| <= MAX_SYMBOL) then Failure(BadLength)
    else
      var exchange := Lower(Strip(k.exchange));
      var raw := Strip(k.rawSymbol);
      var dex := if k.dex.Some? && k.dex.value != [] then Some(Lower(Strip(k.dex.value))) else None;
      if exchange == HYPERLIQUID && k.marketType.Future? then
        if dex.Some? && dex.value != DexOf(raw) then Failure(DexConflict)
        else if raw == [] then Failure(Empty)
        else Success(MarketKey(exchange, k.marketType, Some(DexOf(raw)), raw))
      else if dex.Some? && dex.value != [] then Failure(DexNotAllowed)
      else if exchange == [] || raw == [] then Failure(Empty)
      else Success(MarketKey(exchange, k.marketType, dex, raw))
  }

  // ---------- what the string functions and the validator do ----------

  /** Tab, line feed, vertical tab, form feed, carriage return; the four separators before the blank; the blank. */
  predicate IsBlank(c: char) { 9 <= c as int <= 13 || 28 <= c as int <= 32 }

  predicate AllBlank(s: string) { forall i :: 0 <= i < |s| ==> IsBlank(s[i]) }

  lemma {:induction false} StripLeftCuts(s: string) returns (i: nat)
    ensures i <= |s| && StripLeft(s) == s[i..] && AllBlank(s[..i])
  {
    if s != [] && IsSpace(s[0]) {
      i := StripLeftCuts(s[1..]);
      assert s[i + 1..] == s[1..][i..];
      assert s[..i + 1] == [s[0]] + s[1..][..i];
      i := i + 1;
    } else {
      i := 0;
    }
  }

  lemma {:induction false} StripRightCuts(s: string) returns (j: nat)
    ensures j <= |s| && StripRight(s) == s[..j] && AllBlank(s[j..])
  {
    if s != [] && IsSpace(s[|s| - 1]) {
      j := StripRightCuts(s[..|s| - 1]);
      assert s[..j] == s[..|s| - 1][..j];
      assert s[j..] == s[..|s| - 1][j..] + [s[|s| - 1]];
    } else {
      j := |s|;
    }
  }

  /** Stripping cuts blanks off both ends, and all of them. */
  lemma StripCutsBlanks(s: string) returns (i: nat, j: nat)
    ensures i <= j <= |s| && Strip(s) == s[i..j] && AllBlank(s[..i]) && AllBlank(s[j..]) && Tidy(Strip(s))
  {
    StripTidies(s);
    i := StripLeftCuts(s);
    j := StripRightCuts(StripLeft(s));
    assert s[i..][..j] == s[i..i + j] && s[i..][j..] == s[i + j..];
    j := i + j;
  }

  /** Lower and upper case change the 26 letters and nothing else. */
  lemma CaseOfChar(c: char)
    ensures 'A' <= c <= 'Z' ==> LowerChar(c) as int - 'a' as int == c as int - 'A' as int
    ensures 'a' <= c <= 'z' ==> UpperChar(c) as int - 'A' as int == c as int - 'a' as int
    ensures !('A' <= c <= 'Z') ==> LowerChar(c) == c
    ensures !('a' <= c <= 'z') ==> UpperChar(c) == c
  {}

  lemma {:induction false} UpperFacts(s: string)
    ensures |Upper(s)| == |s| && forall i :: 0 <= i < |s| ==> Upper(s)[i] == UpperChar(s[i])
  {
    if s != [] {
      UpperFacts(s[1..]);
      assert Upper(s)[1..] == Upper(s[1..]);
    }
  }

  lemma {:induction false} PrefixEndsAtColon(s: string)
    ensures ':' in s ==> |Prefix(s)| < |s| && s[|Prefix(s)|] == ':' && Prefix(s) == s[..|Prefix(s)|] && ':' !in Prefix(s)
  {
    if s != [] && s[0] != ':' {
      PrefixEndsAtColon(s[1..]);
      if ':' in s {
        assert ':' in s[1..];
        assert s[..|Prefix(s)|] == [s[0]] + s[1..][..|Prefix(s[1..])|];
      }
    }
  }

  /** The validator trims and lowers the exchange and trims the symbol. A Hyperliquid perpetual gets the DEX
      its symbol names before the colon, or the main one, and a DEX that is given must agree; no other
      market may have one. */
  lemma KeyIsNormalized(k: MarketKey)
    ensures var (exchange, raw) := (Lower(Strip(k.exchange)), Strip(k.rawSymbol));
            var named := if ':' in raw then Lower(Prefix(raw)) else "main";
            var given := if k.dex.None? || k.dex.value == "" then None else Some(Lower(Strip(k.dex.value)));
            var perpetual := exchange == "hyperliquid" && k.marketType.Future?;
            && (Normalize(k).Success? <==>
                  && 1 <= |k.exchange| <= 64 && 1 <= |k.rawSymbol| <= 160 && exchange != "" && raw != ""
                  && (if perpetual then given.None? || given == Some(named) else given.None? || given == Some("")))
            && (Normalize(k).Success? ==>
                  Normalize(k).value == MarketKey(exchange, k.marketType, if perpetual then Some(named) else given, raw))
  {
    hide Lower, Strip, Prefix;
  }

  lemma LowerTidy(s: string)
    requires Tidy(s)
    ensures Tidy(Lower(s)) && Strip(Lower(s)) == Lower(s) && Lower(Lower(s)) == Lower(s)
  {
    LowerFacts(s);
    StripOfTidy(Lower(s));
  }

  lemma {:induction false} PrefixFacts(s: string)
    ensures |Prefix(s)| <= |s| && forall i :: 0 <= i < |Prefix(s)| ==> Prefix(s)[i] == s[i]
  {
    if s != [] && s[0] != ':' { PrefixFacts(s[1..]); }
  }

  lemma {:induction false} StripShortens(s: string)
    ensures |StripRight(s)| <= |s| && |StripLeft(s)| <= |s|
    decreases |s|
  {
    if s != [] {
      StripShortens(s[1..]);
      StripShortens(s[..|s| - 1]);
    }
  }

  lemma StripFacts(s: string)
    ensures Tidy(Strip(s)) && Strip(Strip(s)) == Strip(s) && |Strip(s)| <= |s|
  {
    StripTidies(s);
    StripOfTidy(Strip(s));
    StripShortens(s);
    StripShortens(StripLeft(s));
  }

  lemma NormalizedParts(k: MarketKey)
    requires Normalize(k).Success?
    ensures var n := Normalize(k).value;
            && Lower(Strip(n.exchange)) == n.exchange && Strip(n.rawSymbol) == n.rawSymbol
            && 1 <= |n.exchange| <= MAX_EXCHANGE && 1 <= |n.rawSymbol| <= MAX_SYMBOL
            && (IsPerpetual(n) ==> n.dex == Some(DexOf(n.rawSymbol)))
            && (!IsPerpetual(n) && n.dex.Some? ==> n.dex.value == [])
  {
    hide Lower, Strip, DexOf, Tidy;
    StripFacts(k.exchange);
    StripFacts(k.rawSymbol);
    LowerTidy(Strip(k.exchange));
    LowerFacts(Strip(k.exchange));
  }

  /** Reading a stored key back runs the validator again. It gives the same key exactly when the DEX
      of a perpetual has no blank at its ends and no blank DEX was given for another market: a blank
      before the colon of a Hyperliquid symbol makes the stored key unreadable, and a blank DEX is
      read back as none. */
  lemma KeyRoundTrip(k: MarketKey)
    requires Normalize(k).Success?
    ensures var n := Normalize(k).value;
            Normalize(n) == Success(n) <==> if IsPerpetual(n) then Tidy(DexOf(n.rawSymbol)) else n.dex.None?
    ensures var n := Normalize(k).value;
            && (IsPerpetual(n) && !Tidy(DexOf(n.rawSymbol)) ==> Normalize(n) == Failure(DexConflict))
            && (!IsPerpetual(n) ==> Normalize(n) == Success(n.(dex := None)))
  {
    NormalizedParts(k);
    hide Strip, Lower, DexOf, Prefix, Tidy;
    var n := Normalize(k).value;
    if IsPerpetual(n) {
      DexIsLower(n.rawSymbol);
      StripOfLower(DexOf(n.rawSymbol));
      EmptyIsTidy();
    }
  }

  lemma EmptyIsTidy()
    ensures Tidy([])
  {}

  lemma DexIsLower(raw: string)
    ensures Lower(DexOf(raw)) == DexOf(raw)
  {
    LowerFacts(Prefix(raw));
    assert Lower(MAIN) == MAIN;
  }

  lemma StripOfLower(s: string)
    requires Lower(s) == s
    ensures Lower(Strip(s)) == s <==> Tidy(s)
  {
    StripOfTidy(s);
    StripTidies(s);
    LowerTidy(Strip(s));
    if Lower(Strip(s)) == s { assert Tidy(s); }
  }

  /** For example the symbol "x :A". */
  lemma BlankBeforeColon()
    ensures var k := MarketKey(HYPERLIQUID, Future, None, "x :A");
            Normalize(k).Success? && Normalize(Normalize(k).value).Failure?
  {
    hide Strip, Lower, DexOf, Prefix, Tidy;
    var k := MarketKey(HYPERLIQUID, Future, None, "x :A");
    ExampleParts();
    BlankDex();
    assert Normalize(k) == Success(MarketKey(HYPERLIQUID, Future, Some("x "), "x :A"));
    KeyRoundTrip(k);
  }

  lemma ExampleParts()
    ensures Lower(Strip(HYPERLIQUID)) == HYPERLIQUID && Strip("x :A") == "x :A" && !Tidy("x ")
  {
    hide Strip, Lower;
    StripOfTidy("x :A");
    StripOfTidy(HYPERLIQUID);
    LowerOfLower(HYPERLIQUID);
  }

  lemma BlankDex()
    ensures DexOf("x :A") == "x "
  {
    var s := "x :A";
    assert s[1..] == " :A" && s[1..][1..] == ":A";
    assert Prefix(":A") == [] && Prefix(" :A") == [' '] + Prefix(":A") && Prefix(s) == ['x'] + Prefix(" :A");
    LowerOfLower("x ");
  }

  lemma {:induction false} LowerOfLower(s: string)
    requires forall i :: 0 <= i < |s| ==> !('A' <= s[i] <= 'Z')
    ensures Lower(s) == s
  {
    if s != [] { LowerOfLower(s[1..]); }
  }

  // ---------- bindings ----------

  datatype IdentityStatus = Pending | Verified | Conflict | Expired

  datatype UnitStatus = UnitPending | UnitVerified

  datatype ContractKind = SpotContract | Linear | Inverse | Valuation

  /** The terms a fingerprint covers. */
  datatype Terms = Terms(
    assetId: Option<string>, quoteCurrency: string, settlementCurrency: Option<string>, priceMultiplier: real,
    contractSize: Option<real>, contractKind: ContractKind, trackingDefinition: string, specFingerprint: Option<string>)

  /** Times are seconds in UTC; a piece of evidence is opaque. */
  datatype Binding = Binding(
    market: MarketKey, displayName: string, assetKind: string, identity: IdentityStatus, unit: UnitStatus,
    terms: Terms, revision: nat, verifiedAt: Option<int>, validUntil: Option<int>, evidence: seq<string>)

  const MAX_EVIDENCE := 20

  /** `verified_has_evidence`, and the bound on evidence. */
  predicate WellFounded(b: Binding) {
    && |b.evidence| <= MAX_EVIDENCE
    && (b.identity.Verified? ==>
          && b.evidence != []
          && b.terms.assetId.Some? && b.terms.assetId.value != []
          && b.verifiedAt.Some? && b.validUntil.Some? && b.validUntil.value > b.verifiedAt.value)
    && (b.unit.UnitVerified? ==> b.evidence != [] && b.identity.Verified?)
    && (b.unit.UnitVerified? && b.terms.contractKind.Valuation? ==> Strip(b.terms.trackingDefinition) != [])
  }

  /** Why a binding is rejected. */
  datatype Defect = TooMuchEvidence | NoEvidence | NoAsset | NoDates | EndsTooEarly | UnitWithoutIdentity | NothingTracked

  predicate Has(b: Binding, d: Defect) {
    var verified := b.identity == Verified;
    match d
    case TooMuchEvidence => |b.evidence| > 20
    case NoEvidence => (verified || b.unit == UnitVerified) && |b.evidence| == 0
    case NoAsset => verified && (b.terms.assetId == None || b.terms.assetId == Some(""))
    case NoDates => verified && (b.verifiedAt == None || b.validUntil == None)
    case EndsTooEarly => verified && b.verifiedAt.Some? && b.validUntil.Some? && b.validUntil.value <= b.verifiedAt.value
    case UnitWithoutIdentity => b.unit == UnitVerified && !verified
    case NothingTracked => b.unit == UnitVerified && b.terms.contractKind == Valuation && AllBlank(b.terms.trackingDefinition)
  }

  lemma {:induction false} BlankStrips(s: string)
    ensures Strip(s) == "" <==> AllBlank(s)
  {
    var i, j := StripCutsBlanks(s);
    if Strip(s) == "" {
      assert i == j && s == s[..i] + s[j..];
    }
  }

  /** A binding is accepted exactly when it has none of the defects. */
  lemma WellFoundedExactly(b: Binding)
    ensures WellFounded(b) <==> forall d :: !Has(b, d)
  {
    BlankStrips(b.terms.trackingDefinition);
    hide Strip;
    if !WellFounded(b) {
      assert Has(b, TooMuchEvidence) || Has(b, NoEvidence) || Has(b, NoAsset) || Has(b, NoDates) || Has(b, EndsTooEarly)
          || Has(b, UnitWithoutIdentity) || Has(b, NothingTracked);
    }
  }
}
