/**
 * Naming of a new Dell docking station in the asset inventory
 * (Python/dellDocksToGlpi.py): the name parser `(\D*-DK)(\d+)`, the
 * incrementer `incrementNom`, the comparator `compareNom`, and the scan over
 * the inventory's names that picks the new name.
 *
 * The deleted-records lookup `isDeleted(name)` is an oracle: `claimed` is the
 * finite set of names for which `isDeleted` answers False, that is, the
 * server's reply is not an empty list or dict (a non-empty reply, or one that
 * is neither a list nor a dict). So `isDeleted(x)` is `x !in claimed`, and
 * since the set is finite the tail loop always ends.
 */
module DockNaming {
  import opened Wrappers
  import opened Text

  /** The text "-DK" stands at position i of s. */
  predicate MarkerAt(s: string, i: int) {
    0 <= i && i + 3 <= |s| && s[i] == '-' && s[i + 1] == 'D' && s[i + 2] == 'K'
  }

  /** `ValueError("Format de nom invalide")`. */
  datatype NameError = InvalidFormat

  /** What `compareNom` returns: `False`, or `None` by falling off its end. */
  datatype Comparison = ReturnsFalse | ReturnsNone

  /** A match found by `re.search`: group 1 is name[start..split], group 2 is name[split..end]. */
  datatype Span = Span(start: nat, split: nat, end: nat)

  /** The two groups of the match. */
  datatype NameParts = NameParts(prefix: string, digits: string)

  // ---------------------------------------------------------------------------
  // The pattern (\D*-DK)(\d+)
  // ---------------------------------------------------------------------------

  /**
   * `(\D*-DK)(\d+)` matches name[s..q] with group 1 = name[s..p]: a run of
   * non-digits ending in "-DK", then one or more digits.
   */
  ghost predicate MatchesAt(name: string, s: int, p: int, q: int) {
    && 0 <= s && s + 3 <= p < q <= |name|
    && (forall k :: s <= k < p - 3 ==> !IsDigit(name[k]))
    && MarkerAt(name, p - 3)
    && (forall k :: p <= k < q ==> IsDigit(name[k]))
  }

  /** "-DK" stands at i and a digit follows it. */
  predicate MarkerBeforeDigit(name: string, i: int) {
    MarkerAt(name, i) && i + 3 < |name| && IsDigit(name[i + 3])
  }

  /** The pattern occurs somewhere in the name. */
  ghost predicate HasNumberedMarker(name: string) {
    exists i :: MarkerBeforeDigit(name, i)
  }

  /**
   * What the regular-expression engine finds when it starts at position s:
   * `\D*` swallows the whole non-digit run and then gives characters back
   * until "-DK" sits just before a digit, which can only be at the run's end.
   */
  function MatchFrom(name: string, s: nat): Option<(nat, nat)>
    requires s <= |name|
  {
    var e := DigitFrom(name, s);
    if e < |name| && s + 3 <= e && MarkerAt(name, e - 3) then Some((e, DigitRunEnd(name, e)))
    else None
  }

  lemma {:induction false} MatchFromExact(name: string, s: nat)
    requires s <= |name|
    ensures MatchFrom(name, s).Some? ==>
      var (p, q) := MatchFrom(name, s).value;
      && MatchesAt(name, s, p, q)
      && (forall p', q' :: MatchesAt(name, s, p', q') ==> p' == p && q' <= q)
    ensures MatchFrom(name, s).None? ==> forall p, q :: !MatchesAt(name, s, p, q)
  {
    var e := DigitFrom(name, s);
    DigitFromSkipsNonDigits(name, s);
    if e < |name| {
      DigitRunEndSpansDigits(name, e);
    }
    forall p, q | MatchesAt(name, s, p, q)
      ensures p == e && MatchFrom(name, s).Some? && q <= DigitRunEnd(name, e)
    {
      assert forall k :: s <= k < p ==> !IsDigit(name[k]);
      assert IsDigit(name[p]);
    }
  }

  /** `re.search` from position `from` on: the first start that matches. */
  function SearchFrom(name: string, from: nat): Option<Span>
    requires from <= |name|
    decreases |name| - from
  {
    match MatchFrom(name, from)
    case Some((p, q)) => Some(Span(from, p, q))
    case None =>
      if from == |name| then None else SearchFrom(name, from + 1)
  }

  lemma {:induction false} SearchFromLeftmost(name: string, from: nat)
    requires from <= |name|
    ensures var r := SearchFrom(name, from);
      && (r.Some? ==>
        && from <= r.value.start
        && MatchesAt(name, r.value.start, r.value.split, r.value.end)
        && (forall s, p, q :: from <= s < r.value.start ==> !MatchesAt(name, s, p, q))
        && (forall p, q :: MatchesAt(name, r.value.start, p, q) ==> p == r.value.split && q <= r.value.end))
      && (r.None? ==> forall s, p, q :: from <= s ==> !MatchesAt(name, s, p, q))
    decreases |name| - from
  {
    MatchFromExact(name, from);
    if MatchFrom(name, from).None? && from < |name| {
      SearchFromLeftmost(name, from + 1);
    }
  }

  /** `re.search(r'(\D*-DK)(\d+)', name)`. */
  function Search(name: string): Option<Span>
  {
    SearchFrom(name, 0)
  }

  /**
   * `re.search` semantics: the match with the leftmost start; at that start
   * group 1 is as long as it can be, then group 2; None only when the
   * pattern matches nowhere.
   */
  lemma {:induction false} SearchIsLeftmostLongest(name: string)
    ensures var r := Search(name);
      && (r.Some? ==>
        && MatchesAt(name, r.value.start, r.value.split, r.value.end)
        && (forall s, p, q :: MatchesAt(name, s, p, q) ==> r.value.start <= s)
        && (forall p, q :: MatchesAt(name, r.value.start, p, q) ==> p <= r.value.split)
        && (forall q :: MatchesAt(name, r.value.start, r.value.split, q) ==> q <= r.value.end))
      && (r.None? <==> forall s, p, q :: !MatchesAt(name, s, p, q))
  {
    SearchFromLeftmost(name, 0);
  }

  /** A matched group 1: non-digits ending in "-DK". */
  predicate ValidPrefix(prefix: string) {
    |prefix| >= 3 && NoDigits(prefix) && MarkerAt(prefix, |prefix| - 3)
  }

  /** Group 1 of a match is a valid prefix and group 2 a non-empty digit string. */
  lemma {:induction false} MatchedGroups(name: string, s: int, p: int, q: int)
    requires MatchesAt(name, s, p, q)
    ensures ValidPrefix(name[s..p]) && AllDigits(name[p..q])
  {
    var prefix := name[s..p];
    assert forall k :: 0 <= k < |prefix| ==> prefix[k] == name[s + k];
    NoDigitsAt(prefix);
    AllDigitsAt(name[p..q]);
  }

  /** What `Parse` needs of `Search`: the groups it returns are well formed. */
  lemma {:induction false} SearchGroups(name: string)
    ensures Search(name).Some? ==>
      var m := Search(name).value;
      && m.start <= m.split < m.end <= |name|
      && ValidPrefix(name[m.start..m.split]) && AllDigits(name[m.split..m.end])
  {
    SearchFromLeftmost(name, 0);
    if Search(name).Some? {
      var m := Search(name).value;
      MatchedGroups(name, m.start, m.split, m.end);
    }
  }

  /** The groups of `re.search(r'(\D*-DK)(\d+)', name)`, or None when it finds nothing. */
  function Parse(name: string): (r: Option<NameParts>)
    ensures r.Some? ==> ValidPrefix(r.value.prefix) && |r.value.digits| > 0 && AllDigits(r.value.digits)
  {
    SearchGroups(name);
    match Search(name)
    case None => None
    case Some(m) => Some(NameParts(name[m.start..m.split], name[m.split..m.end]))
  }

  /** `int(match.group(2))`. */
  function Number(parts: NameParts): nat
    requires AllDigits(parts.digits)
  {
    Value(parts.digits)
  }

  /** The number carried by a name that parses. */
  function NumberOf(name: string): nat
    requires Parse(name).Some?
  {
    Number(Parse(name).value)
  }

  /** `re.search` finds the pattern exactly when "-DK" stands somewhere right before a digit. */
  lemma {:induction false} ParseFindsMarker(name: string)
    ensures Parse(name).Some? <==> HasNumberedMarker(name)
  {
    SearchIsLeftmostLongest(name);
    match Search(name)
    case None =>
      forall i | MarkerBeforeDigit(name, i) ensures false {
        assert MatchesAt(name, i, i + 3, i + 4);
      }
    case Some(m) =>
      assert MarkerBeforeDigit(name, m.split - 3);
  }

  /**
   * A valid prefix followed by a digit string parses back into exactly those
   * two parts.
   */
  lemma {:induction false} ParseJoined(prefix: string, digits: string)
    requires ValidPrefix(prefix) && |digits| > 0 && AllDigits(digits)
    ensures Parse(prefix + digits) == Some(NameParts(prefix, digits))
  {
    var name := prefix + digits;
    var n := |prefix|;
    NoDigitsAt(prefix);
    AllDigitsAt(digits);
    assert forall k :: 0 <= k < n ==> name[k] == prefix[k];
    assert MatchesAt(name, 0, n, |name|);
    SearchIsLeftmostLongest(name);
    var m := Search(name).value;
    assert m.start == 0;
    assert MatchesAt(name, 0, m.split, m.end);
    assert forall k :: 0 <= k < m.split ==> !IsDigit(name[k]);
    assert name[n] == digits[0];
    assert m.split == n;
    assert m.end == |name|;
    assert name[0..n] == prefix;
    assert name[n..|name|] == digits;
  }

  // ---------------------------------------------------------------------------
  // incrementNom and compareNom
  // ---------------------------------------------------------------------------

  /** `incrementNom(nom)` (lines 148-156). */
  function IncrementName(name: string): (r: Result<string, NameError>)
    ensures r.Ok? <==> Parse(name).Some?
  {
    match Parse(name)
    case None => Err(InvalidFormat)
    case Some(parts) => Ok(parts.prefix + Pad3(Number(parts) + 1))
  }

  /**
   * Round trip: the regular expression finds in `incrementNom(name)` the same
   * prefix group and the number plus one; whatever stood before the prefix
   * group or after the digit run of `name` is gone.
   */
  lemma {:induction false} IncrementRoundTrip(name: string)
    requires Parse(name).Some?
    ensures var parts := Parse(name).value;
      && IncrementName(name) == Ok(parts.prefix + Pad3(Number(parts) + 1))
      && Parse(IncrementName(name).value) == Some(NameParts(parts.prefix, Pad3(Number(parts) + 1)))
      && NumberOf(IncrementName(name).value) == NumberOf(name) + 1
  {
    var k := NumberOf(name) + 1;
    Pad3Reads(k);
    ParseJoined(Parse(name).value.prefix, Pad3(k));
  }

  /**
   * The number `incrementNom` writes is padded to three digits and never
   * truncated: it is three digits long, or as long as `str(number + 1)` when
   * that is longer.
   */
  lemma {:induction false} IncrementPadsNeverTruncates(name: string)
    requires Parse(name).Some?
    ensures var parts := Parse(name).value;
      && |IncrementName(name).value| == |parts.prefix| + if |Show(Number(parts) + 1)| >= 3 then |Show(Number(parts) + 1)| else 3
  {
    Pad3Reads(NumberOf(name) + 1);
  }

  /** `incrementNom` on a name it wrote itself moves to the next number. */
  lemma {:induction false} IncrementFormatted(prefix: string, k: nat)
    requires ValidPrefix(prefix)
    ensures IncrementName(prefix + Pad3(k)) == Ok(prefix + Pad3(k + 1))
  {
    Pad3Reads(k);
    ParseJoined(prefix, Pad3(k));
  }

  /**
   * Zeros in front of the number are dropped: `incrementNom` of a name whose
   * digits carry extra leading zeros writes the next number padded to three
   * digits only (X-DK0007 becomes X-DK008).
   */
  lemma {:induction false} IncrementIgnoresLeadingZeros(prefix: string, n: nat, k: nat)
    requires ValidPrefix(prefix)
    ensures IncrementName(prefix + (Zeros(n) + Pad3(k))) == Ok(prefix + Pad3(k + 1))
  {
    hide Pad3, Zeros, Value;
    Pad3Reads(k);
    ValueIgnoresLeadingZeros(n, Pad3(k));
    ParseJoined(prefix, Zeros(n) + Pad3(k));
  }

  /** `incrementNom` raises exactly when no "-DK" stands right before a digit. */
  lemma {:induction false} IncrementNameFailsIff(name: string)
    ensures IncrementName(name).Err? <==> !HasNumberedMarker(name)
  {
    ParseFindsMarker(name);
  }

  /** `compareNom(nom1, nom2)` (lines 158-167). */
  function CompareNames(first: string, second: string): (r: Result<Comparison, NameError>)
    ensures r.Err? <==> Parse(first).None? || Parse(second).None?
    ensures r == Ok(ReturnsFalse) <==>
      && Parse(first).Some? && Parse(second).Some?
      && NumberOf(second) != NumberOf(first) + 1
  {
    match (Parse(first), Parse(second))
    case (Some(a), Some(b)) =>
      if Number(b) != Number(a) + 1 then Ok(ReturnsFalse) else Ok(ReturnsNone)
    case _ => Err(InvalidFormat)
  }

  /** `compareNom` raises exactly when one of the two names lacks "-DK" right before a digit. */
  lemma {:induction false} CompareNamesFailsIff(first: string, second: string)
    ensures CompareNames(first, second).Err? <==> !HasNumberedMarker(first) || !HasNumberedMarker(second)
  {
    ParseFindsMarker(first);
    ParseFindsMarker(second);
  }

  /**
   * Prefixes play no part in `compareNom`: for names the incrementer writes,
   * it returns None exactly when the second number follows the first,
   * whatever the two prefixes are.
   */
  lemma {:induction false} CompareIgnoresPrefixes(p1: string, j: nat, p2: string, k: nat)
    requires ValidPrefix(p1) && ValidPrefix(p2)
    ensures CompareNames(p1 + Pad3(j), p2 + Pad3(k)) == if k == j + 1 then Ok(ReturnsNone) else Ok(ReturnsFalse)
  {
    hide Pad3, Search, Value;
    Pad3Reads(j);
    Pad3Reads(k);
    ParseJoined(p1, Pad3(j));
    ParseJoined(p2, Pad3(k));
  }

  // ---------------------------------------------------------------------------
  // The tail: incrementing past the names held by deleted records
  // ---------------------------------------------------------------------------

  /** Different numbers give different names under one prefix. */
  lemma {:induction false} NamesDiffer(prefix: string, j: nat, k: nat)
    requires j != k
    ensures prefix + Pad3(j) != prefix + Pad3(k)
  {
    if prefix + Pad3(j) == prefix + Pad3(k) {
      assert Pad3(j) == (prefix + Pad3(j))[|prefix|..];
      assert Pad3(k) == (prefix + Pad3(k))[|prefix|..];
      Pad3Injective(j, k);
    }
  }

  /**
   * The first number from k on whose name, prefix + `{:03}`, no deleted
   * record holds. A claimed name that is passed is set aside: no later
   * number is formatted to it.
   */
  function FreeFrom(prefix: string, k: nat, claimed: set<string>): nat
    decreases claimed
  {
    var name := prefix + Pad3(k);
    if name !in claimed then k else FreeFrom(prefix, k + 1, claimed - {name})
  }

  /** FreeFrom is the first number from k on whose name is free; every name before it is claimed. */
  lemma {:induction false} FreeFromIsFirstFree(prefix: string, k: nat, claimed: set<string>)
    ensures var r := FreeFrom(prefix, k, claimed);
      && k <= r
      && prefix + Pad3(r) !in claimed
      && forall j :: k <= j < r ==> prefix + Pad3(j) in claimed
    decreases claimed
  {
    hide Pad3;
    var name := prefix + Pad3(k);
    if name in claimed {
      FreeFromIsFirstFree(prefix, k + 1, claimed - {name});
      NamesDiffer(prefix, FreeFrom(prefix, k, claimed), k);
    }
  }

  /**
   * Lines 227-229 as a value: `incrementNom(last)`, incremented again while
   * a deleted record holds it.
   */
  function TailOutcome(last: string, claimed: set<string>): Result<string, NameError>
  {
    match Parse(last)
    case None => Err(InvalidFormat)
    case Some(parts) => Ok(parts.prefix + Pad3(FreeFrom(parts.prefix, Number(parts) + 1, claimed)))
  }

  /**
   * What the tail yields: a name no deleted record holds, with the last
   * name's prefix and a number above the last name's; every name the
   * incrementer passes on the way is held by a deleted record. It fails
   * exactly when the last name does not parse.
   */
  lemma {:induction false} TailIsFreeAndAbove(last: string, claimed: set<string>)
    ensures TailOutcome(last, claimed).Err? <==> Parse(last).None?
    ensures Parse(last).Some? ==>
      var r := TailOutcome(last, claimed).value;
      && r !in claimed
      && Parse(r).Some?
      && Parse(r).value.prefix == Parse(last).value.prefix
      && NumberOf(r) > NumberOf(last)
      && (forall j :: NumberOf(last) < j < NumberOf(r) ==> Parse(last).value.prefix + Pad3(j) in claimed)
  {
    hide Pad3, FreeFrom, Search, Value, Show;
    if Parse(last).Some? {
      var parts := Parse(last).value;
      var f := FreeFrom(parts.prefix, Number(parts) + 1, claimed);
      FreeFromIsFirstFree(parts.prefix, Number(parts) + 1, claimed);
      Pad3Reads(f);
      ParseJoined(parts.prefix, Pad3(f));
    }
  }

  /** Lines 227-229: `incrementNom(last)`, then `incrementNom` again while `isDeleted` is False. */
  method IncrementPastClaimed(last: string, claimed: set<string>) returns (r: Result<string, NameError>)
    ensures r == TailOutcome(last, claimed)
  {
    hide IncrementName, Parse, Pad3, FreeFrom, ValidPrefix, Number;
    var first := IncrementName(last);
    if first.Err? {
      return Err(InvalidFormat);
    }
    var parts := Parse(last).value;
    IncrementRoundTrip(last);
    ghost var k: nat := Number(parts) + 1;
    ghost var target := FreeFrom(parts.prefix, k, claimed);
    FreeFromIsFirstFree(parts.prefix, k, claimed);
    var newDockName := first.value;
    while newDockName in claimed
      invariant ValidPrefix(parts.prefix)
      invariant Number(parts) + 1 <= k <= target
      invariant newDockName == parts.prefix + Pad3(k)
      decreases target - k
    {
      IncrementFormatted(parts.prefix, k);
      newDockName := IncrementName(newDockName).value;
      k := k + 1;
    }
    r := Ok(newDockName);
  }

  // ---------------------------------------------------------------------------
  // The scan over the inventory's names (lines 207-230)
  // ---------------------------------------------------------------------------

  /**
   * The comparison the scan makes at each index j >= 2 while its cursors
   * keep advancing: `compareNom(names[j - 2], names[j - 1])`.
   */
  function Comparisons(names: seq<string>): (r: seq<Result<Comparison, NameError>>)
    ensures |r| == |names|
  {
    if |names| < 3 then [Ok(ReturnsNone), Ok(ReturnsNone)][..|names|]
    else Comparisons(names[..|names| - 1]) + [CompareNames(names[|names| - 3], names[|names| - 2])]
  }

  lemma {:induction false} ComparisonAt(names: seq<string>, j: nat)
    requires 2 <= j < |names|
    ensures Comparisons(names)[j] == CompareNames(names[j - 2], names[j - 1])
  {
    if j < |names| - 1 {
      ComparisonAt(names[..|names| - 1], j);
    }
  }

  /** How the comparisons at indices 2 .. hi-1 end: all successors, a first gap, or a name that does not parse. */
  datatype GapScan = NoGap | GapAt(step: nat) | BadName

  /** The first comparison among indices 2 .. hi-1 that does not return None. */
  function FirstGap(comparisons: seq<Result<Comparison, NameError>>, hi: nat): (r: GapScan)
    requires hi <= |comparisons|
    ensures r.GapAt? ==> 2 <= r.step < hi && comparisons[r.step] == Ok(ReturnsFalse)
  {
    if hi <= 2 then NoGap
    else
      match FirstGap(comparisons, hi - 1)
      case NoGap =>
        (match comparisons[hi - 1]
         case Err(_) => BadName
         case Ok(ReturnsFalse) => GapAt(hi - 1)
         case Ok(ReturnsNone) => NoGap)
      case other => other
  }

  /**
   * FirstGap is the first comparison that is not None: NoGap when all are
   * None, GapAt at the first False, BadName at the first raised error.
   */
  lemma {:induction false} FirstGapIsFirst(comparisons: seq<Result<Comparison, NameError>>, hi: nat)
    requires hi <= |comparisons|
    ensures var r := FirstGap(comparisons, hi);
      && (r == NoGap <==> forall j :: 2 <= j < hi ==> comparisons[j] == Ok(ReturnsNone))
      && (r.GapAt? ==>
        && 2 <= r.step < hi
        && comparisons[r.step] == Ok(ReturnsFalse)
        && forall j :: 2 <= j < r.step ==> comparisons[j] == Ok(ReturnsNone))
      && (r == BadName ==>
        exists e :: 2 <= e < hi && comparisons[e].Err? && forall j :: 2 <= j < e ==> comparisons[j] == Ok(ReturnsNone))
    decreases hi
  {
    if hi > 2 {
      FirstGapIsFirst(comparisons, hi - 1);
    }
  }

  lemma {:induction false} FirstGapSettled(comparisons: seq<Result<Comparison, NameError>>, lo: nat, hi: nat)
    requires lo <= hi <= |comparisons|
    requires FirstGap(comparisons, lo) != NoGap
    ensures FirstGap(comparisons, hi) == FirstGap(comparisons, lo)
    decreases hi - lo
  {
    if lo < hi {
      FirstGapSettled(comparisons, lo, hi - 1);
    }
  }

  /** The index of the first element from index 2 on that equals the last name. */
  function TailStep(names: seq<string>): (t: nat)
    requires |names| >= 3
    ensures 2 <= t < |names| && names[t] == names[|names| - 1]
    ensures forall j :: 2 <= j < t ==> names[j] != names[|names| - 1]
  {
    FirstEqualFrom(names, 2)
  }

  function FirstEqualFrom(names: seq<string>, j: nat): (t: nat)
    requires 2 <= j < |names|
    requires forall i :: 2 <= i < j ==> names[i] != names[|names| - 1]
    ensures j <= t < |names| && names[t] == names[|names| - 1]
    ensures forall i :: 2 <= i < t ==> names[i] != names[|names| - 1]
    decreases |names| - j
  {
    if names[j] == names[|names| - 1] then j else FirstEqualFrom(names, j + 1)
  }

  /** The tail's name as the scan's result. */
  function TailResult(last: string, claimed: set<string>): Result<Option<string>, NameError>
  {
    match TailOutcome(last, claimed)
    case Ok(name) => Ok(Some(name))
    case Err(e) => Err(e)
  }

  /**
   * The new dock name the scan settles on, stated by where things happen:
   * fewer than three names give None; otherwise the scan runs up to the
   * first element t (from index 2 on) equal to the last name. If a
   * comparison up to t finds a gap and `incrementNom` of its first name is
   * free, that is the name; if it is claimed, the cursors stay put and the
   * tail at t decides.
   */
  function NewDockName(names: seq<string>, claimed: set<string>): Result<Option<string>, NameError>
  {
    if |names| < 3 then Ok(None)
    else
      match FirstGap(Comparisons(names), TailStep(names) + 1)
      case BadName => Err(InvalidFormat)
      case GapAt(g) =>
        ComparisonAt(names, g);
        var candidate := IncrementName(names[g - 2]).value;
        if candidate !in claimed then Ok(Some(candidate)) else TailResult(names[|names| - 1], claimed)
      case NoGap => TailResult(names[|names| - 1], claimed)
  }

  /** A name that does not parse, met at or before the tail step, ends the scan with Err. */
  lemma {:induction false} NewDockNameFails(names: seq<string>, claimed: set<string>, i: nat)
    requires 3 <= |names| && i <= TailStep(names)
    requires FirstGap(Comparisons(names), i + 1) == BadName
    ensures NewDockName(names, claimed) == Err(InvalidFormat)
  {
    hide Comparisons, IncrementName, TailResult;
    FirstGapSettled(Comparisons(names), i + 1, TailStep(names) + 1);
  }

  /** A gap found at or before the tail step whose candidate is free decides the scan. */
  lemma {:induction false} NewDockNameFillsGap(names: seq<string>, claimed: set<string>, i: nat, g: nat)
    requires 3 <= |names| && i <= TailStep(names)
    requires FirstGap(Comparisons(names), i + 1) == GapAt(g)
    requires IncrementName(names[g - 2]).Ok? && IncrementName(names[g - 2]).value !in claimed
    ensures NewDockName(names, claimed) == Ok(Some(IncrementName(names[g - 2]).value))
  {
    hide Comparisons, IncrementName, TailResult;
    FirstGapSettled(Comparisons(names), i + 1, TailStep(names) + 1);
  }

  /** Reaching the tail step with no free gap leaves the answer to the tail. */
  lemma {:induction false} NewDockNameTakesTail(names: seq<string>, claimed: set<string>)
    requires 3 <= |names|
    requires var scan := FirstGap(Comparisons(names), TailStep(names) + 1);
      && scan != BadName
      && (scan.GapAt? ==> IncrementName(names[scan.step - 2]).Ok? && IncrementName(names[scan.step - 2]).value in claimed)
    ensures NewDockName(names, claimed) == TailResult(names[|names| - 1], claimed)
  {
    hide Comparisons, IncrementName, TailResult;
  }

  /** The scan yields None exactly when there are fewer than three names. */
  lemma {:induction false} NewDockNameNoneIff(names: seq<string>, claimed: set<string>)
    ensures NewDockName(names, claimed) == Ok(None) <==> |names| < 3
  {
    hide Comparisons, IncrementName, TailOutcome;
    if |names| >= 3 {
      assert NewDockName(names, claimed) != Ok(None);
    }
  }

  /** Whatever name the scan settles on, no deleted record holds it. */
  lemma {:induction false} NewDockNameIsFree(names: seq<string>, claimed: set<string>)
    ensures NewDockName(names, claimed).Ok? && NewDockName(names, claimed).value.Some? ==>
      NewDockName(names, claimed).value.value !in claimed
  {
    hide Comparisons, IncrementName;
    if |names| >= 3 {
      TailIsFreeAndAbove(names[|names| - 1], claimed);
    }
  }

  /** The scan raises only when one of the names it handles has no "-DK" right before a digit. */
  lemma {:induction false} NewDockNameFailsOnlyOnBadName(names: seq<string>, claimed: set<string>)
    ensures NewDockName(names, claimed).Err? ==> exists j :: 0 <= j < |names| && Parse(names[j]).None?
  {
    hide IncrementName, TailOutcome;
    if |names| >= 3 && NewDockName(names, claimed).Err? {
      var comparisons := Comparisons(names);
      var t := TailStep(names);
      FirstGapIsFirst(comparisons, t + 1);
      match FirstGap(comparisons, t + 1)
      case BadName =>
        var e :| 2 <= e < t + 1 && comparisons[e].Err? && forall j :: 2 <= j < e ==> comparisons[j] == Ok(ReturnsNone);
        ComparisonAt(names, e);
        assert Parse(names[e - 2]).None? || Parse(names[e - 1]).None?;
      case GapAt(g) =>
        TailIsFreeAndAbove(names[|names| - 1], claimed);
        assert Parse(names[|names| - 1]).None?;
      case NoGap =>
        TailIsFreeAndAbove(names[|names| - 1], claimed);
        assert Parse(names[|names| - 1]).None?;
    }
  }

  /**
   * The last pair of names is never compared: when every comparison the
   * scan can make finds a successor, the tail decides, whether or not the
   * last name follows the one before it.
   */
  lemma {:induction false} LastPairNeverCompared(names: seq<string>, claimed: set<string>)
    requires 3 <= |names|
    requires forall j :: 0 <= j < |names| - 2 ==> CompareNames(names[j], names[j + 1]) == Ok(ReturnsNone)
    ensures NewDockName(names, claimed) == TailResult(names[|names| - 1], claimed)
  {
    hide Comparisons, FirstGap, CompareNames, IncrementName, TailResult, Parse;
    var comparisons := Comparisons(names);
    var t := TailStep(names);
    forall j | 2 <= j < t + 1
      ensures comparisons[j] == Ok(ReturnsNone)
    {
      ComparisonAt(names, j);
      assert CompareNames(names[j - 2], names[j - 2 + 1]) == Ok(ReturnsNone);
    }
    FirstGapIsFirst(comparisons, t + 1);
  }

  /**
   * With no gap up to the tail step and a last name the scan wrote itself,
   * the result is the first free name after the last one.
   */
  lemma {:induction false} NoGapTakesNextFree(names: seq<string>, prefix: string, m: nat, claimed: set<string>)
    requires ValidPrefix(prefix)
    requires 3 <= |names| && names[|names| - 1] == prefix + Pad3(m)
    requires FirstGap(Comparisons(names), TailStep(names) + 1) == NoGap
    ensures NewDockName(names, claimed) == Ok(Some(prefix + Pad3(FreeFrom(prefix, m + 1, claimed))))
  {
    hide Pad3, IncrementName, Parse, CompareNames, Value, FreeFrom, Comparisons, NewDockName, TailStep;
    NewDockNameTakesTail(names, claimed);
    Pad3Reads(m);
    ParseJoined(prefix, Pad3(m));
  }

  /**
   * The gap between the last two names is not filled: for names
   * P001, P002, P004 (and any other start than 1) the scan skips the
   * free number 3 and yields P005, or the first free name after it.
   */
  lemma {:induction false} GapBeforeLastNameIsMissed(names: seq<string>, prefix: string, k: nat, claimed: set<string>)
    requires ValidPrefix(prefix)
    requires names == [prefix + Pad3(k), prefix + Pad3(k + 1), prefix + Pad3(k + 3)]
    ensures NewDockName(names, claimed) == Ok(Some(prefix + Pad3(FreeFrom(prefix, k + 4, claimed))))
  {
    hide Pad3, IncrementName, Parse, CompareNames, Value, FreeFrom, Comparisons, NewDockName;
    assert TailStep(names) == 2;
    CompareIgnoresPrefixes(prefix, k, prefix, k + 1);
    ComparisonAt(names, 2);
    assert FirstGap(Comparisons(names), 3) == NoGap;
    NoGapTakesNextFree(names, prefix, k + 3, claimed);
  }

  /**
   * The step that reaches the last name still compares the two names before
   * it: for P001, P003, P004 the gap after P001 is found at that step and
   * P002 is the result when it is free; otherwise the tail decides.
   */
  lemma {:induction false} LastStepStillCompares(names: seq<string>, prefix: string, k: nat, claimed: set<string>)
    requires ValidPrefix(prefix)
    requires names == [prefix + Pad3(k), prefix + Pad3(k + 2), prefix + Pad3(k + 3)]
    ensures NewDockName(names, claimed)
      == if prefix + Pad3(k + 1) !in claimed then Ok(Some(prefix + Pad3(k + 1)))
         else Ok(Some(prefix + Pad3(FreeFrom(prefix, k + 4, claimed))))
  {
    hide Pad3, IncrementName, Parse, CompareNames, Value, FreeFrom, Comparisons, NewDockName;
    assert TailStep(names) == 2;
    CompareIgnoresPrefixes(prefix, k, prefix, k + 2);
    ComparisonAt(names, 2);
    assert FirstGap(Comparisons(names), 3) == GapAt(2);
    IncrementFormatted(prefix, k);
    if prefix + Pad3(k + 1) !in claimed {
      NewDockNameFillsGap(names, claimed, 2, 2);
    } else {
      NewDockNameTakesTail(names, claimed);
      Pad3Reads(k + 3);
      ParseJoined(prefix, Pad3(k + 3));
    }
  }

  /**
   * An earlier copy of the last name fires the tail early: for P001, P002,
   * P003, P010, P003 the tail runs at index 2, so the gap between P003 and
   * P010 is never seen and the result is the first free name from P004 on.
   */
  lemma {:induction false} DuplicateFiresTailEarly(names: seq<string>, prefix: string, k: nat, claimed: set<string>)
    requires ValidPrefix(prefix)
    requires names == [prefix + Pad3(k), prefix + Pad3(k + 1), prefix + Pad3(k + 2), prefix + Pad3(k + 9), prefix + Pad3(k + 2)]
    ensures TailStep(names) == 2
    ensures NewDockName(names, claimed) == Ok(Some(prefix + Pad3(FreeFrom(prefix, k + 3, claimed))))
  {
    hide Pad3, IncrementName, Parse, CompareNames, Value, FreeFrom, Comparisons, NewDockName;
    assert names[2] == names[|names| - 1];
    assert TailStep(names) == 2;
    CompareIgnoresPrefixes(prefix, k, prefix, k + 1);
    ComparisonAt(names, 2);
    assert FirstGap(Comparisons(names), 3) == NoGap;
    NoGapTakesNextFree(names, prefix, k + 2, claimed);
  }

  /**
   * Lines 207-230: the loop over the names with the cursors `dock1Name` and
   * `dock2Name`. A raised ValueError ends the scan with Err.
   */
  method FindNewDockName(names: seq<string>, claimed: set<string>) returns (r: Result<Option<string>, NameError>)
    ensures r == NewDockName(names, claimed)
  {
    hide Comparisons, CompareNames, IncrementName, TailOutcome, TailStep, Parse;
    ghost var comparisons := Comparisons(names);
    var dock1Name: Option<string> := None;
    var dock2Name: Option<string> := None;
    var newDockName: Option<string> := None;
    for i := 0 to |names|
      invariant newDockName == None
      invariant i == 0 ==> dock1Name == None && dock2Name == None
      invariant i == 1 ==> dock1Name == Some(names[0]) && dock2Name == None
      invariant i >= 2 ==> match FirstGap(comparisons, i)
        case NoGap => dock1Name == Some(names[i - 2]) && dock2Name == Some(names[i - 1])
        case GapAt(g) =>
          && dock1Name == Some(names[g - 2]) && dock2Name == Some(names[g - 1])
          && CompareNames(names[g - 2], names[g - 1]) == Ok(ReturnsFalse)
          && IncrementName(names[g - 2]).Ok? && IncrementName(names[g - 2]).value in claimed
        case BadName => false
      invariant forall j :: 2 <= j < i ==> names[j] != names[|names| - 1]
    {
      var dock := names[i];
      if dock1Name == None {
        dock1Name := Some(dock);
        continue;
      }
      if dock2Name == None {
        dock2Name := Some(dock);
        continue;
      }
      ComparisonAt(names, i);
      var comparison := CompareNames(dock1Name.value, dock2Name.value);
      if comparison.Err? {
        NewDockNameFails(names, claimed, i);
        return Err(InvalidFormat);
      }
      if comparison.value == ReturnsFalse {
        newDockName := Some(IncrementName(dock1Name.value).value);
        if newDockName.value !in claimed {
          NewDockNameFillsGap(names, claimed, i, FirstGap(comparisons, i + 1).step);
          break;
        } else {
          newDockName := None;
        }
      } else {
        dock1Name := dock2Name;
        dock2Name := Some(dock);
      }
      if dock == names[|names| - 1] {
        NewDockNameTakesTail(names, claimed);
        var tail := IncrementPastClaimed(names[|names| - 1], claimed);
        if tail.Err? {
          assert tail.error == InvalidFormat;
          return Err(InvalidFormat);
        }
        newDockName := Some(tail.value);
        break;
      }
    }
    r := Ok(newDockName);
  }
}
