/**
 * The AnyDesk ID lookup of Python/anydeskIDtoGLPI.py: the scan of the
 * lines of AnyDesk's `system.conf` for the first line that starts with
 * `ad.anynet.id=` and holds a run of digits, and the computer comment
 * written from the ID found.
 *
 * The configuration file is given as the sequence of its lines. An ID that
 * is never found is `None`: the script then reads an unbound name at its
 * emptiness check and stops.
 */
module AnydeskId {
  import opened Wrappers
  import opened Text

  /** The key the pattern `^ad\.anynet\.id=` matches at the start of a line. */
  const IdKey: string := "ad.anynet.id="

  /** The fixed text in front of the ID in the computer's comment. */
  const CommentLabel: string := "AnyDesk ID: "

  /** `re.match(r"^ad\.anynet\.id=", line)` finds a match. */
  predicate IsIdLine(line: string) {
    IdKey <= line
  }

  /** `re.search(r"\d+", line).group()`: the first maximal run of digits, or None. */
  function FirstDigitRun(line: string): Option<string>
  {
    var start := DigitFrom(line, 0);
    if start == |line| then None else Some(line[start..DigitRunEnd(line, start)])
  }

  /**
   * What `re.search(r"\d+", line)` promises: None exactly when the line has
   * no digit; otherwise a non-empty run of digits with no digit before it
   * and none right after it.
   */
  lemma {:induction false} FirstDigitRunIsFirstMaximal(line: string)
    ensures FirstDigitRun(line).None? <==> forall i :: 0 <= i < |line| ==> !IsDigit(line[i])
    ensures FirstDigitRun(line).Some? ==> exists s, e ::
      && 0 <= s < e <= |line|
      && FirstDigitRun(line).value == line[s..e]
      && (forall i :: 0 <= i < s ==> !IsDigit(line[i]))
      && (forall i :: s <= i < e ==> IsDigit(line[i]))
      && (e == |line| || !IsDigit(line[e]))
  {
    var s := DigitFrom(line, 0);
    DigitFromSkipsNonDigits(line, 0);
    if s < |line| {
      var e := DigitRunEnd(line, s);
      DigitRunEndSpansDigits(line, s);
      assert IsDigit(line[s]);
      assert 0 <= s < e <= |line| && FirstDigitRun(line).value == line[s..e];
    }
  }

  /** The ID is a non-empty string of digits, so the check `if not anydeskId` passes. */
  lemma {:induction false} FirstDigitRunIsNumber(line: string)
    requires FirstDigitRun(line).Some?
    ensures |FirstDigitRun(line).value| > 0 && AllDigits(FirstDigitRun(line).value)
  {
    var s := DigitFrom(line, 0);
    var e := DigitRunEnd(line, s);
    DigitRunEndSpansDigits(line, s);
    var run := line[s..e];
    assert forall i :: 0 <= i < |run| ==> run[i] == line[s + i];
    AllDigitsAt(run);
  }

  /** A line that `re.match` accepts and on which `re.search` finds digits: it yields the ID. */
  predicate YieldsId(line: string) {
    IsIdLine(line) && FirstDigitRun(line).Some?
  }

  /** The ID the loop at lines 59-64 ends with: the digit run of the first line that yields one. */
  function ConfiguredId(lines: seq<string>): Option<string>
  {
    if lines == [] then None
    else if YieldsId(lines[0]) then FirstDigitRun(lines[0])
    else ConfiguredId(lines[1..])
  }

  /**
   * The first line that yields an ID decides: the result is its digit run,
   * and every line before it either lacks the key or has no digit. None
   * exactly when no line yields an ID.
   */
  lemma {:induction false} ConfiguredIdIsFirst(lines: seq<string>)
    ensures ConfiguredId(lines).None? <==> forall k :: 0 <= k < |lines| ==> !YieldsId(lines[k])
    ensures ConfiguredId(lines).Some? ==> exists k ::
      && 0 <= k < |lines|
      && YieldsId(lines[k])
      && ConfiguredId(lines) == FirstDigitRun(lines[k])
      && forall j :: 0 <= j < k ==> !YieldsId(lines[j])
  {
    if lines != [] {
      ConfiguredIdIsFirst(lines[1..]);
      assert forall k :: 1 <= k < |lines| ==> lines[1..][k - 1] == lines[k];
      if !YieldsId(lines[0]) && ConfiguredId(lines).Some? {
        var k :| 0 <= k < |lines[1..]| && YieldsId(lines[1..][k])
          && ConfiguredId(lines[1..]) == FirstDigitRun(lines[1..][k])
          && forall j :: 0 <= j < k ==> !YieldsId(lines[1..][j]);
        assert YieldsId(lines[k + 1]) && forall j :: 0 <= j < k + 1 ==> !YieldsId(lines[j]);
      }
    }
  }

  /** No character of the key is a digit. */
  lemma {:induction false} KeyHasNoDigits()
    ensures forall i :: 0 <= i < |IdKey| ==> !IsDigit(IdKey[i])
  {
  }

  /**
   * On a line with the key, the ID is the first digit run after the key:
   * `re.search` scans the whole line, but the key holds no digit.
   */
  lemma {:induction false} IdFollowsKey(line: string)
    requires IsIdLine(line)
    ensures FirstDigitRun(line) == FirstDigitRun(line[|IdKey|..])
  {
    KeyHasNoDigits();
    assert forall i :: 0 <= i < |IdKey| ==> line[i] == IdKey[i];
    DigitFromAfterNonDigits(line, 0, |IdKey|);
    FirstDigitRunOfSuffix(line, |IdKey|);
  }

  /** When the first n characters hold no digit, dropping them leaves the first digit run as it was. */
  lemma {:induction false} FirstDigitRunOfSuffix(line: string, n: nat)
    requires n <= |line| && DigitFrom(line, 0) == DigitFrom(line, n)
    ensures FirstDigitRun(line) == FirstDigitRun(line[n..])
  {
    hide DigitFrom, DigitRunEnd;
    var rest := line[n..];
    DigitFromShift(line, n, 0);
    var s := DigitFrom(rest, 0);
    if s < |rest| {
      var e := DigitRunEnd(rest, s);
      DigitRunEndShift(line, n, s);
      SliceOfSuffix(line, n, s, e);
    }
    assert FirstDigitRun(line) == FirstDigitRun(rest);
  }

  lemma {:induction false} SliceOfSuffix(line: string, n: nat, s: nat, e: nat)
    requires n + e <= |line| && s <= e
    ensures line[n..][s..e] == line[n + s..n + e]
  {
    assert forall i :: 0 <= i < e - s ==> line[n..][s..e][i] == line[n + s + i];
  }

  /** Skipping non-digits: the first digit from `from` is the first digit from `to`. */
  lemma {:induction false} DigitFromAfterNonDigits(s: string, from: nat, to: nat)
    requires from <= to <= |s|
    requires forall i :: from <= i < to ==> !IsDigit(s[i])
    ensures DigitFrom(s, from) == DigitFrom(s, to)
    decreases |s| - from
  {
    if from < to {
      DigitFromAfterNonDigits(s, from + 1, to);
    }
  }

  /** DigitFrom on a suffix is DigitFrom on the whole string, shifted. */
  lemma {:induction false} DigitFromShift(s: string, d: nat, from: nat)
    requires d + from <= |s|
    ensures DigitFrom(s[d..], from) + d == DigitFrom(s, from + d)
    decreases |s| - from
  {
    if d + from < |s| {
      assert s[d..][from] == s[from + d];
      DigitFromShift(s, d, from + 1);
    }
  }

  /** DigitRunEnd on a suffix is DigitRunEnd on the whole string, shifted. */
  lemma {:induction false} DigitRunEndShift(s: string, d: nat, from: nat)
    requires d + from <= |s|
    ensures DigitRunEnd(s[d..], from) + d == DigitRunEnd(s, from + d)
    decreases |s| - from
  {
    if d + from < |s| {
      assert s[d..][from] == s[from + d];
      DigitRunEndShift(s, d, from + 1);
    }
  }

  /**
   * Lines 58-64: `for ligne in f`, the anchored key match, the digit search
   * and `break` on the first hit. None stands for `anydeskId` left unbound.
   */
  method ReadAnydeskId(lines: seq<string>) returns (anydeskId: Option<string>)
    ensures anydeskId == ConfiguredId(lines)
  {
    anydeskId := None;
    for n := 0 to |lines|
      invariant anydeskId == None
      invariant ConfiguredId(lines[n..]) == ConfiguredId(lines)
    {
      var line := lines[n];
      assert lines[n..][0] == line && lines[n..][1..] == lines[n + 1..];
      if IsIdLine(line) {
        var found := FirstDigitRun(line);
        if found.Some? {
          anydeskId := found;
          break;
        }
      }
    }
  }

  /** Line 141: the computer's comment, `f"AnyDesk ID: {anydeskId}"`. */
  function Comment(id: string): string
  {
    CommentLabel + id
  }

  /** Reading an ID back out of a comment: the text after the label, if the label is there. */
  function IdInComment(comment: string): Option<string>
  {
    if CommentLabel <= comment then Some(comment[|CommentLabel|..]) else None
  }

  /** The comment carries the ID verbatim after its label, so it can be read back. */
  lemma {:induction false} CommentRoundTrip(id: string)
    ensures IdInComment(Comment(id)) == Some(id)
  {
    assert Comment(id)[|CommentLabel|..] == id;
  }

  /** Different IDs give different comments. */
  lemma {:induction false} CommentInjective(a: string, b: string)
    requires Comment(a) == Comment(b)
    ensures a == b
  {
    CommentRoundTrip(a);
    CommentRoundTrip(b);
  }
}
