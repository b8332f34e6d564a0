# Dock naming and AnyDesk ID lookup, modelled in Dafny

This project models the logic of two inventory scripts that feed a GLPI
asset inventory.

- **`Python/dellDocksToGlpi.py`** picks the name of a newly found Dell
  docking station. Names look like `SITE-DK007`. The script parses them
  with the pattern `(\D*-DK)(\d+)`.
  - `incrementNom` writes the next name, with the number zero-padded to
    three digits.
  - `compareNom` tells whether two names carry consecutive numbers.
  - A scan over the inventory's sorted names looks for the first gap. It
    takes the gap's name if no soft-deleted record holds it. Otherwise it
    increments past the last name until it reaches a name no deleted
    record holds.
- **`Python/anydeskIDtoGLPI.py`** reads AnyDesk's `system.conf`. It takes
  the first run of digits on the first line that starts with
  `ad.anynet.id=` and contains a digit (so `ad.anynet.id=123 456` gives
  `123`). It writes that run into the computer's comment as
  `AnyDesk ID: <id>`.

The files are:

- `wrappers.dfy`: `Option` and `Result`. They stand for Python's `None`
  and for raised exceptions.
- `text.dfy`: the ASCII digit class `\d`, `int(s)`, `str(k)` and the
  format `f"{k:03}"`.
- `dock_naming.dfy`:
  - the regular-expression search, with leftmost start and greedy groups;
  - `incrementNom` and `compareNom` as functions;
  - the tail loop (`while isDeleted(...) == False`) as the method
    `IncrementPastClaimed`;
  - the scan as the method `FindNewDockName`, with its `for` loop, cursors,
    `continue` and `break`.

  Each method is proved equal to a specification function
  (`TailOutcome`, `NewDockName`), and lemmas state what those functions
  promise.
- `anydesk_id.dfy`: the line scan as the method `ReadAnydeskId`, proved
  against `ConfiguredId`, and the comment text.

The deleted-records lookup `isDeleted(name)` is an HTTP query. Here it is
an oracle: `claimed` is the finite set of names for which `isDeleted`
answers False. That happens when the server's reply is a non-empty list
or dict, or is neither a list nor a dict. So `isDeleted(x)` is
`x !in claimed`.

### Behaviours of the scan that are easy to miss

- **The last pair is never compared.** At step `i` the scan compares the
  cursor names, which are `names[i-2]` and `names[i-1]`. The step that
  reaches the last name still compares the two names before it, and a
  free gap found there ends the scan: `[A-DK001, A-DK003, A-DK004]` gives
  `A-DK002` (`DockNaming.LastStepStillCompares`). Only then does it take
  the tail. The pair (second-to-last, last) would be compared at a later
  step, which never comes. So `[A-DK001, A-DK002, A-DK004]` with nothing
  claimed gives `A-DK005`, not `A-DK003`
  (`DockNaming.GapBeforeLastNameIsMissed`,
  `DockNaming.LastPairNeverCompared`).
- **An earlier copy of the last name ends the scan early.** The tail
  fires at the first name, from the third on, that equals the last name.
  So `[A-DK001, A-DK002, A-DK003, A-DK010, A-DK003]` gives `A-DK004`, and
  the gap after `A-DK003` is never seen
  (`DockNaming.DuplicateFiresTailEarly`).
- **Fewer than three names give `None`.** With fewer than three names no
  comparison is made and the tail never runs. So `[A-DK001, A-DK003]`
  yields `None` whatever is claimed (`DockNaming.NewDockNameNoneIff`).

## Model

In the rows below, P(k) is a valid name prefix followed by `f"{k:03}"`.

| member | source | states |
|---|---|---|
| Text.Show | Python/dellDocksToGlpi.py:153 | `str(k)`: at least one digit, all digits, no leading zero unless k is 0, one digit exactly when k < 10 |
| Text.ValueOfShow | Python/dellDocksToGlpi.py:152-153 | `int(str(k)) == k` |
| Text.ValueIgnoresLeadingZeros | Python/dellDocksToGlpi.py:152 | `int()` of a digit string is unchanged by zeros added in front |
| Text.Pad3Reads | Python/dellDocksToGlpi.py:153 | `f"{k:03}"` is a digit string that reads back as k; its length is 3 or `len(str(k))`, whichever is larger; from 100 on it is `str(k)` |
| Text.Pad3Injective | Python/dellDocksToGlpi.py:153 | two different numbers never format to the same text |
| DockNaming.MatchFromExact | Python/dellDocksToGlpi.py:149 | at a given start the engine's match is the pattern match with the longest group 1 and then the longest group 2; no match there exactly when the pattern matches nowhere at that start |
| DockNaming.SearchFromLeftmost | Python/dellDocksToGlpi.py:149 | searching from a position finds the first start that matches, and None only when no later start matches |
| DockNaming.SearchIsLeftmostLongest | Python/dellDocksToGlpi.py:149 | `re.search` returns the leftmost match, greedy in both groups, and None exactly when the pattern occurs nowhere |
| DockNaming.MatchedGroups | Python/dellDocksToGlpi.py:149-152 | group 1 of a match is non-digits ending in "-DK"; group 2 is digits |
| DockNaming.SearchGroups | Python/dellDocksToGlpi.py:149-152 | the spans the search returns lie inside the name and hold a valid group 1 and a digit group 2 |
| DockNaming.Parse | Python/dellDocksToGlpi.py:149-152 | a successful parse gives a group 1 of non-digits ending in "-DK" and a non-empty all-digit group 2 |
| DockNaming.ParseFindsMarker | Python/dellDocksToGlpi.py:149-156 | the parse succeeds exactly when "-DK" stands somewhere right before a digit |
| DockNaming.ParseJoined | Python/dellDocksToGlpi.py:149-152 | a valid prefix followed by digits parses back into exactly that prefix and those digits |
| DockNaming.IncrementName | Python/dellDocksToGlpi.py:148-156 | `incrementNom` returns a name exactly when the parse succeeds, and raises `ValueError` otherwise |
| DockNaming.IncrementRoundTrip | Python/dellDocksToGlpi.py:148-154 | the new name is group 1 followed by the padded number plus one; parsing it gives back the same group 1 and that number plus one |
| DockNaming.IncrementPadsNeverTruncates | Python/dellDocksToGlpi.py:153 | the new name's length is the prefix plus 3, or plus `len(str(n+1))` when that is longer (X-DK999 gives X-DK1000) |
| DockNaming.IncrementFormatted | Python/dellDocksToGlpi.py:148-154 | on a name it wrote itself, `incrementNom` moves to the next number |
| DockNaming.IncrementIgnoresLeadingZeros | Python/dellDocksToGlpi.py:150-153 | extra leading zeros are dropped (X-DK0007 gives X-DK008) |
| DockNaming.IncrementNameFailsIff | Python/dellDocksToGlpi.py:148-156 | `incrementNom` raises exactly when no "-DK" stands right before a digit |
| DockNaming.CompareNames | Python/dellDocksToGlpi.py:158-167 | `compareNom` raises exactly when either name fails to parse; returns False exactly when both parse and the second number is not the first plus one; otherwise None |
| DockNaming.CompareNamesFailsIff | Python/dellDocksToGlpi.py:158-167 | `compareNom` raises exactly when one name has no "-DK" right before a digit |
| DockNaming.CompareIgnoresPrefixes | Python/dellDocksToGlpi.py:158-165 | for formatted names only the numbers matter: None exactly when they are consecutive, whatever the prefixes |
| DockNaming.FreeFromIsFirstFree | Python/dellDocksToGlpi.py:228-229 | the tail loop's iterations, judged by `isDeleted` (lines 175-179), stop at the first number from k whose name no deleted record holds; every name before it is held |
| DockNaming.TailIsFreeAndAbove | Python/dellDocksToGlpi.py:226-229 | the tail's name is not held, keeps the last name's prefix, and has a higher number; every name skipped is held; it raises exactly when the last name does not parse |
| DockNaming.IncrementPastClaimed | Python/dellDocksToGlpi.py:226-229 | the tail loop yields exactly the tail's specified name, or the error |
| DockNaming.ComparisonAt | Python/dellDocksToGlpi.py:217 | while the cursors advance, step j compares `names[j-2]` with `names[j-1]` |
| DockNaming.FirstGapIsFirst | Python/dellDocksToGlpi.py:217-225 | the scan's verdict is the first comparison that does not return None: no gap when all return None, a gap at the first False, an error at the first raise |
| DockNaming.FirstGapSettled | Python/dellDocksToGlpi.py:217-222 | once a gap or an error is found, later steps do not change the verdict |
| DockNaming.TailStep | Python/dellDocksToGlpi.py:226 | the tail fires at the first index from 2 on whose name equals the last name |
| DockNaming.NewDockNameFails | Python/dellDocksToGlpi.py:217-236 | a comparison that raises before the tail ends the scan with the error |
| DockNaming.NewDockNameFillsGap | Python/dellDocksToGlpi.py:217-220 | a gap whose incremented name is free is the result |
| DockNaming.NewDockNameTakesTail | Python/dellDocksToGlpi.py:217-229 | with no gap, or a gap whose name is held, the tail decides |
| DockNaming.NewDockNameNoneIff | Python/dellDocksToGlpi.py:207-216 | the scan yields None exactly when there are fewer than three names |
| DockNaming.NewDockNameIsFree | Python/dellDocksToGlpi.py:217-229 | any name the scan yields is held by no deleted record |
| DockNaming.NewDockNameFailsOnlyOnBadName | Python/dellDocksToGlpi.py:207-236 | the scan raises only if some name in the list fails to parse |
| DockNaming.LastPairNeverCompared | Python/dellDocksToGlpi.py:211-230 | when every comparison the scan can make finds a successor, the tail decides, however the last two names relate |
| DockNaming.GapBeforeLastNameIsMissed | Python/dellDocksToGlpi.py:207-230 | for P001, P002, P004 the scan yields the first free name from P005 on, never P003 |
| DockNaming.LastStepStillCompares | Python/dellDocksToGlpi.py:217-230 | for P(k), P(k+2), P(k+3) the step that reaches the last name finds the gap: P(k+1) when it is free, otherwise the first free name from P(k+4) on |
| DockNaming.NoGapTakesNextFree | Python/dellDocksToGlpi.py:217-229 | with no gap up to the tail step and a last name P(m), the result is the first free name from P(m+1) on |
| DockNaming.DuplicateFiresTailEarly | Python/dellDocksToGlpi.py:217-230 | for P(k), P(k+1), P(k+2), P(k+9), P(k+2) the tail fires at index 2 and yields the first free name from P(k+3) on; the gap before P(k+9) is never seen |
| DockNaming.FindNewDockName | Python/dellDocksToGlpi.py:207-230 | the loop with its cursors, `continue` and `break` yields exactly the specified name, None or error |
| AnydeskId.FirstDigitRunIsFirstMaximal | Python/anydeskIDtoGLPI.py:61-63 | `re.search(r"\d+")` finds nothing exactly when the line has no digit; otherwise it gives a run of digits with no digit before it and none right after it |
| AnydeskId.FirstDigitRunIsNumber | Python/anydeskIDtoGLPI.py:61-66 | a found ID is a non-empty string of digits, so the emptiness check passes |
| AnydeskId.IdFollowsKey | Python/anydeskIDtoGLPI.py:60-63 | on a line with the key, the ID is the first digit run after `ad.anynet.id=` |
| AnydeskId.ConfiguredIdIsFirst | Python/anydeskIDtoGLPI.py:58-64 | the ID comes from the first line that starts with the key and holds a digit; every earlier line lacks one of the two; None exactly when no line has both |
| AnydeskId.ReadAnydeskId | Python/anydeskIDtoGLPI.py:58-64 | the loop over the lines, with its `break`, yields exactly that ID, or None |
| AnydeskId.CommentRoundTrip | Python/anydeskIDtoGLPI.py:141 | the comment is "AnyDesk ID: " followed by the ID verbatim, and the ID reads back out of it |
| AnydeskId.CommentInjective | Python/anydeskIDtoGLPI.py:141 | different IDs give different comments |

## Left out

- Operating-system detection, log files, timestamps, `print` and the
  process exit codes. They are I/O and the clock.
- All HTTP calls to the inventory: session, device lookups, posts and
  puts. The list of names is a parameter, in the order the server
  delivers it (sorted by name).
- The deleted-records lookup `isDeleted`. It is an HTTP query, modelled
  as the oracle set `claimed`. A server whose answers change between
  calls is not modelled.
- Every `subprocess` call: fwupdmgr, jq, awk, PowerShell, ping,
  `pip install`, and the Linux branch's `anydesk --get-id`. They are
  external processes.
- Reading `system.conf` from disk. The file is its sequence of lines.
- The code after `sys.exit` in the dock script (Python/dellDocksToGlpi.py:238-292)
  is unreachable.
- The dispatch on `IndexError` that decides whether a new name is needed.
- DockNaming.FreeFrom: `claimed` is a finite set, so the tail loop
  `while isDeleted(newDockName) == False` (Python/dellDocksToGlpi.py:228)
  always ends. In the script the loop has no bound and spins forever if
  the lookup never answers True, for example when every reply is neither
  a list nor a dict. The model excludes that case.
- DockNaming.TailIsFreeAndAbove, DockNaming.IncrementPastClaimed and
  DockNaming.NewDockNameIsFree: a free tail name always exists only
  because `claimed` is finite, as above.
- DockNaming.NewDockNameNoneIff: with three or more names the model
  always ends with a name or an error. This rests on the finite `claimed`
  and on every name being a string.
- DockNaming.FindNewDockName: names are strings; a JSON `null` name is not
  modelled. The cursors use `None` for "not yet set"
  (Python/dellDocksToGlpi.py:211-216). A `null` that the advance at line
  225 puts into `dock2Name` resets that cursor. The next name then refills
  it through `continue`, and it is neither compared nor checked against
  the last name. So `[A-DK001, A-DK002, A-DK003, null, A-DK004]` ends with
  `None`, while the model gives A-DK005 on the four strings. A `null` last
  name makes `incrementNom(None)` raise `TypeError` at line 227.
- DockNaming.IncrementName, DockNaming.IncrementNameFailsIff,
  DockNaming.CompareNames and DockNaming.CompareNamesFailsIff: integers are
  unbounded. CPython limits `int()` and `str()`/format conversions to 4300
  digits by default, so `int(match.group(2))` (lines 152, 162-163) and
  `f"{number:03}"` (line 153) raise `ValueError` on longer digit runs. In
  the model the only error is a missing "-DK" before a digit.
- DockNaming.TailIsFreeAndAbove: for the same reason, its "raises exactly
  when the last name does not parse" ignores the digit limit.
- AnydeskId.ReadAnydeskId: `None` stands for `anydeskId` never being
  bound. The script then fails at its emptiness check with a `NameError`
  traceback. It does not print its "not found" message.
- Text.IsDigit: ASCII digits only. In a `str` pattern, Python's `\d` and
  `int()` also accept other Unicode decimal digits.
