/** The text notation of `Params` (params.py): rendering a record with
    `__str__` and the line-oriented, best-effort parser `parse_from_notation`.
    The two regular expressions, `NOTATION_RE` and `BONUS_RE`, are written out
    as a hand-made scanner over the line, one function per group:

      [override]? N s M b @ K (<E | >E)? (+@J)* (# comment)?

    with optional white space between the tokens, `s` and `b` in either case,
    and positions written one-indexed. */
module Notation {
  import opened Common
  import opened Params

  // ---------------------------------------------------------------------------
  // Characters

  /** Python's white space (`str.isspace`, which is also what `\s` and
      `str.strip()` use for `str`). */
  predicate IsSpace(c: char)
  {
    var n := c as int;
    || n == 0x20 || (0x09 <= n <= 0x0d) || (0x1c <= n <= 0x1f) || n == 0x85 || n == 0xa0
    || n == 0x1680 || (0x2000 <= n <= 0x200a) || n == 0x2028 || n == 0x2029 || n == 0x202f
    || n == 0x205f || n == 0x3000
  }

  predicate IsDigit(c: char) { '0' <= c <= '9' }

  predicate AllDigits(s: string) { forall i :: 0 <= i < |s| ==> IsDigit(s[i]) }

  /** The letter `s` under `re.IGNORECASE` (which also folds the long s). */
  predicate IsLetterS(c: char) { c == 's' || c == 'S' || c as int == 0x17f }

  /** The letter `b` under `re.IGNORECASE`. */
  predicate IsLetterB(c: char) { c == 'b' || c == 'B' }

  // ---------------------------------------------------------------------------
  // Integers and their decimal text

  function DigitChar(d: nat): (c: char)
    requires d < 10
    ensures IsDigit(c)
  {
    (('0' as int) + d) as char
  }

  function DigitValue(c: char): (d: nat)
    requires IsDigit(c)
    ensures d < 10
  {
    (c as int) - ('0' as int)
  }

  /** `int(digits)` for a non-empty run of ASCII digits. */
  function DigitsValue(d: string): nat
    requires AllDigits(d)
  {
    if d == [] then 0 else DigitsValue(d[..|d| - 1]) * 10 + DigitValue(d[|d| - 1])
  }

  /** `str(n)` for a natural number. */
  function NatToString(n: nat): (s: string)
    ensures |s| >= 1 && AllDigits(s)
    ensures n >= 10 <==> |s| >= 2
    ensures s[0] != '0' || n == 0
  {
    if n < 10 then [DigitChar(n)]
    else NatToString(n / 10) + [DigitChar(n % 10)]
  }

  /** `str(n)` for any integer. */
  function IntToString(n: int): string
  {
    if n < 0 then "-" + NatToString(-n) else NatToString(n)
  }

  /** Reading back the decimal text of `n` gives `n`. */
  lemma {:induction false} NatToStringValue(n: nat)
    ensures DigitsValue(NatToString(n)) == n
  {
    if n >= 10 {
      var s := NatToString(n);
      assert s[..|s| - 1] == NatToString(n / 10);
      NatToStringValue(n / 10);
    }
  }

  // ---------------------------------------------------------------------------
  // Scanning primitives, each over the remaining suffix of the line

  /** Drops leading white space (`\s*`). */
  function SkipSpace(s: string): (r: string)
    ensures |r| <= |s|
    ensures r == [] || !IsSpace(r[0])
  {
    if s != [] && IsSpace(s[0]) then SkipSpace(s[1..]) else s
  }

  /** What `SkipSpace` leaves is a suffix of its input. */
  lemma {:induction false} SkipSpaceSuffix(s: string)
    ensures s[|s| - |SkipSpace(s)|..] == SkipSpace(s)
  {
    if s != [] && IsSpace(s[0]) {
      SkipSpaceSuffix(s[1..]);
      assert s[|s| - |SkipSpace(s)|..] == s[1..][|s[1..]| - |SkipSpace(s[1..])|..];
    }
  }

  /** Drops trailing white space. */
  function SkipSpaceRight(s: string): (r: string)
    ensures |r| <= |s| && r == s[..|r|]
    ensures r == [] || !IsSpace(r[|r| - 1])
  {
    if s != [] && IsSpace(s[|s| - 1]) then SkipSpaceRight(s[..|s| - 1]) else s
  }

  /** `str.strip()`. */
  function Strip(s: string): (r: string)
    ensures |r| <= |s|
    ensures r == [] || (!IsSpace(r[0]) && !IsSpace(r[|r| - 1]))
    ensures (s == [] || (!IsSpace(s[0]) && !IsSpace(s[|s| - 1]))) ==> r == s
  {
    SkipSpaceRight(SkipSpace(s))
  }

  /** The longest run of digits at the start of `s` (`\d*`), and the rest. */
  function SpanDigits(s: string): (r: (string, string))
    ensures r.0 + r.1 == s
    ensures AllDigits(r.0)
    ensures r.1 == [] || !IsDigit(r.1[0])
  {
    if s != [] && IsDigit(s[0]) then
      var (d, rest) := SpanDigits(s[1..]);
      assert [s[0]] + d + rest == s;
      ([s[0]] + d, rest)
    else ([], s)
  }

  /** A number as the notation writes it: whether it carried a `+`, its value. */
  datatype Number = Number(signed: bool, value: nat)

  /** `\+?[1-9]\d*`. */
  function PositiveInt(s: string): (r: Option<(Number, string)>)
    ensures r.Some? ==> r.value.0.value >= 1 && |r.value.1| < |s|
  {
    var signed := s != [] && s[0] == '+';
    var (d, rest) := SpanDigits(if signed then s[1..] else s);
    if d != [] && d[0] != '0' then
      LeadingDigitPositive(d);
      Some((Number(signed, DigitsValue(d)), rest))
    else None
  }

  /** `(?:\+?[1-9]\d*)?\d`, the bump count: one digit (0 allowed), or a
      signed or unsigned run of two or more digits without a leading zero.
      A signed single digit (`+5`) does not match. */
  function BumpCount(s: string): (r: Option<(Number, string)>)
    ensures r.Some? ==> |r.value.1| < |s|
  {
    var signed := s != [] && s[0] == '+';
    var (d, rest) := SpanDigits(if signed then s[1..] else s);
    if (!signed && |d| == 1) || (|d| >= 2 && d[0] != '0') then
      Some((Number(signed, DigitsValue(d)), rest))
    else None
  }

  lemma {:induction false} LeadingDigitPositive(d: string)
    requires d != [] && AllDigits(d) && d[0] != '0'
    ensures DigitsValue(d) >= 1
  {
    if |d| > 1 {
      LeadingDigitPositive(d[..|d| - 1]);
    }
  }

  // ---------------------------------------------------------------------------
  // The groups of NOTATION_RE

  /** What one successful match of `NOTATION_RE` captured. */
  /** What the grammar guarantees of the optional captures: at most one
      extra count, every number at least 1, and no line break in the
      comment. */
  predicate Captured(m: Notated)
  {
    && (m.exStd.None? || m.exBmp.None?)
    && (m.exStd.Some? ==> m.exStd.value >= 1)
    && (m.exBmp.Some? ==> m.exBmp.value >= 1)
    && (forall i :: 0 <= i < |m.bonuses| ==> m.bonuses[i].value >= 1)
    && (m.comment.Some? ==> '\n' !in m.comment.value)
  }

  datatype Notated = Notated(
    override: Option<string>,        // group "override"
    std: nat, bmp: nat, setPos: nat, // groups "std", "bmp", "set"
    exStd: Option<nat>,              // group "ex_std"
    exBmp: Option<nat>,              // group "ex_bmp"
    bonuses: seq<Number>,            // the entries of group "bonuses"
    comment: Option<string>)         // group "comment"

  /** `(?:\[(?P<override>[^]]+)\])?`: a bracketed, non-empty name without `]`.
      An opening bracket that is not closed this way fails the whole match,
      since no other group can start with `[`. */
  function MatchOverride(s: string): (r: Option<(Option<string>, string)>)
    ensures r.Some? ==> |r.value.1| <= |s|
  {
    if s != [] && s[0] == '[' then
      var k := FirstClose(s, 1);
      if 2 <= k < |s| then Some((Some(s[1..k]), s[k + 1..])) else None
    else Some((None, s))
  }

  /** The index of the first `]` at or after `i`, or |s| if there is none. */
  function FirstClose(s: string, i: nat): (k: nat)
    requires i <= |s|
    ensures i <= k <= |s|
    ensures forall j :: i <= j < k ==> s[j] != ']'
    ensures k < |s| ==> s[k] == ']'
    decreases |s| - i
  {
    if i == |s| || s[i] == ']' then i else FirstClose(s, i + 1)
  }

  /** `(?:<\s*(?P<ex_std>N)|>\s*(?P<ex_bmp>N))?`.  A `<` or `>` that is not
      followed by a positive number fails the whole match. */
  function MatchExtras(s: string): (r: Option<(Option<nat>, Option<nat>, string)>)
    ensures r.Some? ==> |r.value.2| <= |s|
    ensures r.Some? ==> r.value.0.None? || r.value.1.None?
    ensures r.Some? && r.value.0.Some? ==> r.value.0.value >= 1
    ensures r.Some? && r.value.1.Some? ==> r.value.1.value >= 1
  {
    if s != [] && (s[0] == '<' || s[0] == '>') then
      match PositiveInt(SkipSpace(s[1..]))
      case None => None
      case Some((n, rest)) =>
        if s[0] == '<' then Some((Some(n.value), None, rest)) else Some((None, Some(n.value), rest))
    else Some((None, None, s))
  }

  /** `(?:\+\s*@\s*\+?[1-9]\d*\s*)*`: as many bonus positions as follow. */
  function MatchBonuses(s: string): (r: (seq<Number>, string))
    ensures |r.1| <= |s|
    ensures forall i :: 0 <= i < |r.0| ==> r.0[i].value >= 1
    decreases |s|
  {
    if s != [] && s[0] == '+' then
      var t := SkipSpace(s[1..]);
      if t != [] && t[0] == '@' then
        match PositiveInt(SkipSpace(t[1..]))
        case None => ([], s)
        case Some((n, rest)) =>
          var (more, tail) := MatchBonuses(SkipSpace(rest));
          ([n] + more, tail)
      else ([], s)
    else ([], s)
  }

  /** `NOTATION_RE.match(line)`, anchored at both ends. */
  function MatchNotation(line: string): (r: Option<Notated>)
    ensures r.Some? ==> line != [] && (r.value.override.Some? <==> line[0] == '[')
    ensures r.Some? ==> r.value.std >= 1 && r.value.setPos >= 1
    ensures r.Some? ==> Captured(r.value)
  {
    match MatchOverride(line)
    case None => None
    case Some((override, s0)) => MatchPool(override, SkipSpace(s0))
  }

  /** The standard count and the letter `s`. */
  function MatchPool(override: Option<string>, s: string): (r: Option<Notated>)
    ensures r.Some? ==> s != [] && r.value.override == override
    ensures r.Some? ==> r.value.std >= 1 && r.value.setPos >= 1 && Captured(r.value)
  {
    match PositiveInt(s)
    case None => None
    case Some((std, s1)) =>
      var s2 := SkipSpace(s1);
      if s2 == [] || !IsLetterS(s2[0]) then None
      else MatchBump(override, std.value, SkipSpace(s2[1..]))
  }

  /** The bump count and the letter `b`. */
  function MatchBump(override: Option<string>, std: nat, s: string): (r: Option<Notated>)
    ensures r.Some? ==> r.value.override == override && r.value.std == std
    ensures r.Some? ==> r.value.setPos >= 1 && Captured(r.value)
  {
    match BumpCount(s)
    case None => None
    case Some((bmp, s3)) =>
      var s4 := SkipSpace(s3);
      if s4 == [] || !IsLetterB(s4[0]) then None
      else MatchSet(override, std, bmp.value, SkipSpace(s4[1..]))
  }

  /** `@` and the set-die position. */
  function MatchSet(override: Option<string>, std: nat, bmp: nat, s: string): (r: Option<Notated>)
    ensures r.Some? ==> r.value.override == override && r.value.std == std && r.value.bmp == bmp
    ensures r.Some? ==> r.value.setPos >= 1 && Captured(r.value)
  {
    if s == [] || s[0] != '@' then None
    else match PositiveInt(SkipSpace(s[1..]))
    case None => None
    case Some((setNum, s6)) => MatchTail(override, std, bmp, setNum.value, SkipSpace(s6))
  }

  /** The groups after the set die: the extras, the bonus positions and the
      comment, which runs to the end of the line (`.` does not match a line
      break). */
  function MatchTail(override: Option<string>, std: nat, bmp: nat, setPos: nat, s: string): (r: Option<Notated>)
    ensures r.Some? ==> r.value.override == override && r.value.std == std && r.value.bmp == bmp
    ensures r.Some? ==> r.value.setPos == setPos && Captured(r.value)
  {
    match MatchExtras(s)
    case None => None
    case Some((exStd, exBmp, s7)) =>
      var (bonuses, s8) := MatchBonuses(SkipSpace(s7));
      var notated := Notated(override, std, bmp, setPos, exStd, exBmp, bonuses, None);
      if s8 == [] then Some(notated)
      else if s8[0] == '#' && '\n' !in s8 then
        SkipSpaceSuffix(s8[1..]);
        Some(notated.(comment := Some(SkipSpace(s8[1..]))))
      else None
  }

  // ---------------------------------------------------------------------------
  // From a match to a record

  /** `BONUS_RE.findall(bonuses)` as written: `BONUS_RE` has no `\+?` before
      the number, so a bonus position written with a sign (`+@+2`), which
      `NOTATION_RE` accepts, is not found and silently dropped. */
  function BonusDiceAsWritten(bonuses: seq<Number>): (r: seq<int>)
    ensures |r| <= |bonuses|
    ensures |r| == |bonuses| <==> forall i :: 0 <= i < |bonuses| ==> !bonuses[i].signed
    ensures (forall i :: 0 <= i < |bonuses| ==> !bonuses[i].signed) ==> r == BonusDice(bonuses)
  {
    if bonuses == [] then []
    else (if bonuses[0].signed then [] else [bonuses[0].value - 1]) + BonusDiceAsWritten(bonuses[1..])
  }

  /** Every bonus position the line names, translated to zero-indexed. */
  function BonusDice(bonuses: seq<Number>): (r: seq<int>)
    ensures |r| == |bonuses|
    ensures forall i :: 0 <= i < |r| ==> r[i] == bonuses[i].value - 1
  {
    seq(|bonuses|, i requires 0 <= i < |bonuses| => bonuses[i].value - 1)
  }

  /** The body of the `try` block: translate positions to zero-indexed, look up
      the override die, and construct.  Every failure (the assertion that a map
      is given, a missing key, a failed validation) skips the line. */
  function Build(m: Notated, overrides: map<string, Die>, bonusDice: seq<int>): (r: Option<Params>)
    ensures r.Some? ==> Valid(r.value)
  {
    var overrideStr := if m.override.Some? then Strip(m.override.value) else "";
    var comment := if m.comment.Some? then Strip(m.comment.value) else "";
    // an empty map fails the assertion, any other map without the key the lookup
    if overrideStr != "" && overrideStr !in overrides then None
    else
      var die := if overrideStr != "" then Some(overrides[overrideStr]) else None;
      var name := if overrideStr != "" then Some(overrideStr) else None;
      var exStd := if m.exStd.Some? then m.exStd.value else 0;
      var exBmp := if m.exBmp.Some? then m.exBmp.value else 0;
      match Construct(m.std, m.bmp, m.setPos - 1, bonusDice, exStd, exBmp, comment, die, name)
      case Success(p) => Some(p)
      case Failure(_) => None
  }

  /** One line of `parse_from_notation`: strip, match, collect the bonus
      positions with `BONUS_RE` (signed ones dropped) and build; `None`
      means the line is skipped. */
  function ParseLine(rawLine: string, overrides: map<string, Die>): (r: Option<Params>)
    ensures r.Some? ==> Valid(r.value)
    ensures Strip(rawLine) == [] ==> r.None?
  {
    var line := Strip(rawLine);
    if line == [] then None
    else match MatchNotation(line)
      case None => None
      case Some(m) => Build(m, overrides, BonusDiceAsWritten(m.bonuses))
  }

  /** One line as evidently intended: every bonus position the grammar
      accepts is kept, signed or not. */
  function ParseLineIntended(rawLine: string, overrides: map<string, Die>): (r: Option<Params>)
    ensures r.Some? ==> Valid(r.value)
    ensures Strip(rawLine) == [] ==> r.None?
  {
    var line := Strip(rawLine);
    if line == [] then None
    else match MatchNotation(line)
      case None => None
      case Some(m) => Build(m, overrides, BonusDice(m.bonuses))
  }

  // ---------------------------------------------------------------------------
  // Lines

  /** `s.split("\n")`. */
  function SplitLines(s: string): (lines: seq<string>)
    ensures |lines| >= 1
    ensures forall i :: 0 <= i < |lines| ==> '\n' !in lines[i]
    ensures JoinLines(lines) == s
  {
    if s == [] then [""]
    else
      var rest := SplitLines(s[1..]);
      if s[0] == '\n' then
        assert s == "\n" + JoinLines(rest);
        [""] + rest
      else
        assert JoinLines([[s[0]] + rest[0]] + rest[1..]) == [s[0]] + JoinLines(rest) by {
          if |rest| > 1 {
            assert rest == [rest[0]] + rest[1..];
          }
        }
        [[s[0]] + rest[0]] + rest[1..]
  }

  /** `"\n".join(lines)`. */
  function JoinLines(lines: seq<string>): string
    requires |lines| >= 1
  {
    if |lines| == 1 then lines[0] else lines[0] + "\n" + JoinLines(lines[1..])
  }

  /** The verdict of `ParseLine` on every line, in order. */
  function ParseLines(lines: seq<string>, overrides: map<string, Die>): (r: seq<Option<Params>>)
    ensures |r| == |lines|
  {
    if lines == [] then [] else [ParseLine(lines[0], overrides)] + ParseLines(lines[1..], overrides)
  }

  /** The verdict on line k is the verdict on that line alone. */
  lemma {:induction false} ParseLinesAt(lines: seq<string>, overrides: map<string, Die>, k: nat)
    requires k < |lines|
    ensures ParseLines(lines, overrides)[k] == ParseLine(lines[k], overrides)
  {
    if k > 0 {
      ParseLinesAt(lines[1..], overrides, k - 1);
    }
  }

  lemma {:induction false} ParseLinesAppend(a: seq<string>, b: seq<string>, overrides: map<string, Die>)
    ensures ParseLines(a + b, overrides) == ParseLines(a, overrides) + ParseLines(b, overrides)
  {
    if a == [] {
      assert a + b == b;
    } else {
      assert (a + b)[0] == a[0] && (a + b)[1..] == a[1..] + b;
      ParseLinesAppend(a[1..], b, overrides);
    }
  }

  /** The records of the parsed lines, skipping the ones that were dropped. */
  function Kept(parsed: seq<Option<Params>>): (ps: seq<Params>)
    ensures |ps| <= |parsed|
    ensures forall k :: 0 <= k < |ps| ==> Some(ps[k]) in parsed
  {
    if parsed == [] then []
    else (if parsed[0].Some? then [parsed[0].value] else []) + Kept(parsed[1..])
  }

  /** Keeping distributes over concatenation: lines are parsed independently. */
  lemma {:induction false} KeptAppend(a: seq<Option<Params>>, b: seq<Option<Params>>)
    ensures Kept(a + b) == Kept(a) + Kept(b)
  {
    if a != [] {
      assert (a + b)[0] == a[0] && (a + b)[1..] == a[1..] + b;
      KeptAppend(a[1..], b);
      var head := if a[0].Some? then [a[0].value] else [];
      calc {
        Kept(a + b);
        head + Kept(a[1..] + b);
        head + (Kept(a[1..]) + Kept(b));
        (head + Kept(a[1..])) + Kept(b);
      }
    } else {
      assert a + b == b;
    }
  }

  /** One more parsed line adds its record, if any, at the end. */
  lemma KeptSnoc(parsed: seq<Option<Params>>, i: nat)
    requires i < |parsed|
    ensures Kept(parsed[..i + 1]) == Kept(parsed[..i]) + (if parsed[i].Some? then [parsed[i].value] else [])
  {
    assert parsed[..i + 1] == parsed[..i] + [parsed[i]];
    KeptAppend(parsed[..i], [parsed[i]]);
  }

  /** The records the generator yields for these lines, in order. */
  function Accepted(lines: seq<string>, overrides: map<string, Die>): (ps: seq<Params>)
    ensures |ps| <= |lines|
    ensures forall k :: 0 <= k < |ps| ==> Valid(ps[k])
  {
    var parsed := ParseLines(lines, overrides);
    assert forall k :: 0 <= k < |Kept(parsed)| ==> Valid(Kept(parsed)[k]) by {
      forall k | 0 <= k < |Kept(parsed)| ensures Valid(Kept(parsed)[k]) {
        var j :| 0 <= j < |parsed| && parsed[j] == Some(Kept(parsed)[k]);
        ParseLinesAt(lines, overrides, j);
      }
    }
    Kept(parsed)
  }

  /** `parse_from_notation`: split into lines, skip the blank ones and the
      ones that do not parse or construct, collect the rest in order.  It
      never fails. */
  method ParseFromNotation(s: string, overrides: map<string, Die>) returns (ps: seq<Params>)
    ensures ps == Accepted(SplitLines(s), overrides)
  {
    var lines := SplitLines(s);
    ghost var parsed := ParseLines(lines, overrides);
    ps := [];
    var i := 0;
    while i < |lines|
      invariant 0 <= i <= |lines|
      invariant ps == Kept(parsed[..i])
    {
      ParseLinesAt(lines, overrides, i);
      KeptSnoc(parsed, i);
      var line := ParseLine(lines[i], overrides);
      if line.None? {
        i := i + 1;
        continue;
      }
      ps := ps + [line.value];
      i := i + 1;
    }
    assert parsed[..i] == parsed;
    AcceptedIsKept(lines, overrides);
  }

  lemma AcceptedIsKept(lines: seq<string>, overrides: map<string, Die>)
    ensures Accepted(lines, overrides) == Kept(ParseLines(lines, overrides))
  {
  }

  /** Lines are parsed independently: the result for a batch is the results
      for its parts, one after the other. */
  lemma AcceptedAppend(a: seq<string>, b: seq<string>, overrides: map<string, Die>)
    ensures Accepted(a + b, overrides) == Accepted(a, overrides) + Accepted(b, overrides)
  {
    ParseLinesAppend(a, b, overrides);
    KeptAppend(ParseLines(a, overrides), ParseLines(b, overrides));
  }

  /** A line that is skipped does not stop the lines after it. */
  lemma SkippedLine(before: seq<string>, bad: string, after: seq<string>, overrides: map<string, Die>)
    requires ParseLine(bad, overrides).None?
    ensures Accepted(before + [bad] + after, overrides) == Accepted(before, overrides) + Accepted(after, overrides)
  {
    AcceptedAppend(before + [bad], after, overrides);
    AcceptedAppend(before, [bad], overrides);
    AcceptedOfSkipped(bad, overrides);
    assert Accepted(before, overrides) + [] == Accepted(before, overrides);
  }

  lemma AcceptedOfSkipped(bad: string, overrides: map<string, Die>)
    requires ParseLine(bad, overrides).None?
    ensures Accepted([bad], overrides) == []
  {
    assert ParseLines([bad], overrides) == [None];
  }

  // ---------------------------------------------------------------------------
  // Rendering

  /** `Params.__str__`. */
  function Render(p: Params): (r: string)
    ensures r != [] && !IsSpace(r[0])
    ensures r[0] == '[' <==> p.overrideDieStr.Some? && p.overrideDieStr.value != ""
    ensures p.comment != "" ==> |r| >= |p.comment| + 4 && r[|r| - |p.comment| - 4..] == "  # " + p.comment
  {
    OverrideText(p) + IntToString(p.numStd) + "s" + IntToString(p.numBmp) + "b@" + IntToString(p.setDie + 1)
      + ExtrasText(p) + RenderBonuses(p.bonusDice) + CommentText(p.comment)
  }

  /** The bracketed override name, when there is a non-empty one. */
  function OverrideText(p: Params): string
  {
    if p.overrideDieStr.Some? && p.overrideDieStr.value != "" then "[" + p.overrideDieStr.value + "]" else ""
  }

  /** `extra_std or extra_bmp`: `<E` when the standard extras are non-zero,
      otherwise `>E` when the bump extras are, otherwise nothing. */
  function ExtrasText(p: Params): (r: string)
    ensures r == [] <==> p.extraStd == 0 && p.extraBmp == 0
    ensures p.extraStd != 0 ==> r == "<" + IntToString(p.extraStd)
    ensures p.extraStd == 0 && p.extraBmp != 0 ==> r == ">" + IntToString(p.extraBmp)
  {
    var extraStd := if p.extraStd != 0 then "<" + IntToString(p.extraStd) else "";
    var extraBmp := if p.extraBmp != 0 then ">" + IntToString(p.extraBmp) else "";
    if extraStd != "" then extraStd else extraBmp
  }

  /** The comment, set off by `  # `, when there is one. */
  function CommentText(comment: string): string
  {
    if comment != "" then "  # " + comment else ""
  }

  /** `"".join(f"+@{bonus_die + 1}" for bonus_die in bonus_dice)`. */
  function RenderBonuses(bonusDice: seq<int>): string
  {
    if bonusDice == [] then "" else "+@" + IntToString(bonusDice[0] + 1) + RenderBonuses(bonusDice[1..])
  }

  // ---------------------------------------------------------------------------
  // Render, then parse

  /** A string whose last character is not white space. */
  predicate EndsSolid(s: string)
  {
    s != [] && !IsSpace(s[|s| - 1])
  }

  /** A comment that survives the round trip: already stripped, on one line. */
  predicate PlainComment(c: string)
  {
    Strip(c) == c && '\n' !in c
  }

  /** The bonus positions as the notation writes them: one-indexed, unsigned. */
  function Written(bonusDice: seq<int>): (r: seq<Number>)
    requires forall i :: 0 <= i < |bonusDice| ==> bonusDice[i] >= 0
    ensures |r| == |bonusDice|
  {
    seq(|bonusDice|, i requires 0 <= i < |bonusDice| => Number(false, bonusDice[i] + 1))
  }

  lemma SkipSpaceSolid(s: string)
    requires s == [] || !IsSpace(s[0])
    ensures SkipSpace(s) == s
  {
  }

  lemma SkipSpaceIdempotent(s: string)
    ensures SkipSpace(SkipSpace(s)) == SkipSpace(s)
  {
    SkipSpaceSolid(SkipSpace(s));
  }

  /** A digit run followed by a non-digit splits exactly there. */
  lemma {:induction false} SpanDigitsConcat(d: string, rest: string)
    requires AllDigits(d)
    requires rest == [] || !IsDigit(rest[0])
    ensures SpanDigits(d + rest) == (d, rest)
  {
    if d != [] {
      assert (d + rest)[0] == d[0] && (d + rest)[1..] == d[1..] + rest;
      SpanDigitsConcat(d[1..], rest);
      assert [d[0]] + d[1..] == d;
    } else {
      assert d + rest == rest;
    }
  }

  /** `str(n)` of a positive number reads back as that number. */
  lemma PositiveIntOfText(n: nat, rest: string)
    requires n >= 1
    requires rest == [] || !IsDigit(rest[0])
    ensures PositiveInt(NatToString(n) + rest) == Some((Number(false, n), rest))
  {
    var d := NatToString(n);
    assert (d + rest)[0] == d[0];
    SpanDigitsConcat(d, rest);
    NatToStringValue(n);
  }

  /** `str(n)` of any natural number reads back as a bump count. */
  lemma BumpCountOfText(n: nat, rest: string)
    requires rest == [] || !IsDigit(rest[0])
    ensures BumpCount(NatToString(n) + rest) == Some((Number(false, n), rest))
  {
    var d := NatToString(n);
    assert (d + rest)[0] == d[0];
    SpanDigitsConcat(d, rest);
    NatToStringValue(n);
  }

  lemma {:induction false} RenderBonusesShape(bonusDice: seq<int>)
    ensures RenderBonuses(bonusDice) == [] || RenderBonuses(bonusDice)[0] == '+'
    ensures RenderBonuses(bonusDice) == [] || EndsSolid(RenderBonuses(bonusDice))
  {
    if bonusDice != [] {
      RenderBonusesShape(bonusDice[1..]);
      var x := bonusDice[0] + 1;
      var w := "+@" + IntToString(x);
      var rest := RenderBonuses(bonusDice[1..]);
      assert RenderBonuses(bonusDice) == w + rest;
      NatToStringSolid(if x < 0 then -x else x);
      EndsSolidConcat(if x < 0 then "-" else "", NatToString(if x < 0 then -x else x));
      EndsSolidConcat("+@", IntToString(x));
      EndsSolidConcat(w, rest);
      assert (w + rest)[0] == w[0];
    }
  }

  lemma WrittenCons(bonusDice: seq<int>)
    requires bonusDice != []
    requires forall i :: 0 <= i < |bonusDice| ==> bonusDice[i] >= 0
    ensures Written(bonusDice) == [Number(false, bonusDice[0] + 1)] + Written(bonusDice[1..])
  {
  }

  lemma RenderBonusesHead(bonusDice: seq<int>, u: string)
    requires bonusDice != [] && bonusDice[0] >= 0
    ensures RenderBonuses(bonusDice) + u
         == "+@" + (NatToString(bonusDice[0] + 1) + (RenderBonuses(bonusDice[1..]) + u))
  {
  }

  /** One rendered bonus position `+@k` is scanned as the number k. */
  lemma MatchBonusesStep(k: nat, rest: string)
    requires k >= 1
    requires rest == [] || !IsDigit(rest[0])
    ensures MatchBonuses("+@" + (NatToString(k) + rest))
         == ([Number(false, k)] + MatchBonuses(SkipSpace(rest)).0, MatchBonuses(SkipSpace(rest)).1)
  {
    var n := NatToString(k);
    var s := "+@" + (n + rest);
    assert s[1..] == "@" + (n + rest);
    SkipSpaceSolid(s[1..]);
    assert s[1..][1..] == n + rest;
    assert (n + rest)[0] == n[0];
    SkipSpaceSolid(n + rest);
    PositiveIntOfText(k, rest);
  }

  /** The bonus positions of the rendered text are found again, in order,
      and scanning stops at the comment. */
  lemma {:induction false} MatchBonusesOfText(bonusDice: seq<int>, u: string)
    requires forall i :: 0 <= i < |bonusDice| ==> bonusDice[i] >= 0
    requires u == [] || (u[0] == ' ' && SkipSpace(u) != [] && SkipSpace(u)[0] == '#')
    ensures MatchBonuses(SkipSpace(RenderBonuses(bonusDice) + u)) == (Written(bonusDice), SkipSpace(u))
  {
    if bonusDice == [] {
      assert RenderBonuses(bonusDice) + u == u;
      SkipSpaceIdempotent(u);
    } else {
      MatchBonusesOfText(bonusDice[1..], u);
      MatchBonusesOfTextCons(bonusDice, u);
    }
  }

  /** The rendered bonus positions, followed by a comment or nothing, do
      not start with a digit. */
  lemma BonusesRestShape(bonusDice: seq<int>, u: string)
    requires u == [] || u[0] == ' '
    ensures var rest := RenderBonuses(bonusDice) + u;
      rest == [] || !IsDigit(rest[0])
  {
    var rest := RenderBonuses(bonusDice) + u;
    RenderBonusesShape(bonusDice);
    if RenderBonuses(bonusDice) == [] {
      assert rest == u;
    } else {
      assert rest[0] == RenderBonuses(bonusDice)[0];
    }
  }

  /** The inductive step of `MatchBonusesOfText`. */
  lemma MatchBonusesOfTextCons(bonusDice: seq<int>, u: string)
    requires bonusDice != []
    requires forall i :: 0 <= i < |bonusDice| ==> bonusDice[i] >= 0
    requires u == [] || (u[0] == ' ' && SkipSpace(u) != [] && SkipSpace(u)[0] == '#')
    requires MatchBonuses(SkipSpace(RenderBonuses(bonusDice[1..]) + u)) == (Written(bonusDice[1..]), SkipSpace(u))
    ensures MatchBonuses(SkipSpace(RenderBonuses(bonusDice) + u)) == (Written(bonusDice), SkipSpace(u))
  {
    var rest := RenderBonuses(bonusDice[1..]) + u;
    var s := RenderBonuses(bonusDice) + u;
    var k := bonusDice[0] + 1;
    assert s == "+@" + (NatToString(k) + rest) by {
      RenderBonusesHead(bonusDice, u);
    }
    BonusesRestShape(bonusDice[1..], u);
    assert MatchBonuses(s) == ([Number(false, k)] + Written(bonusDice[1..]), SkipSpace(u)) by {
      MatchBonusesStep(k, rest);
    }
    assert SkipSpace(s) == s by {
      SkipSpaceSolid(s);
    }
    WrittenCons(bonusDice);
  }

  /** A stripped string starts and ends with a character that is not white
      space. */
  lemma StrippedEnds(c: string)
    requires Strip(c) == c
    ensures c == [] || (!IsSpace(c[0]) && !IsSpace(c[|c| - 1]))
  {
    var a := SkipSpace(c);
    SkipSpaceSuffix(c);
    assert |SkipSpaceRight(a)| <= |a| <= |c|;
    assert a == c[|c| - |a|..] == c;
  }

  /** A leading white-space character is skipped. */
  lemma SkipSpaceCons(x: char, s: string)
    requires IsSpace(x)
    ensures SkipSpace([x] + s) == SkipSpace(s)
  {
    assert ([x] + s)[1..] == s;
  }

  lemma SkipCommentLead(c: string)
    requires c != [] && !IsSpace(c[0])
    ensures SkipSpace("  # " + c) == "# " + c
  {
    var hashed := "# " + c;
    assert "  # " + c == [' ', ' '] + hashed;
    SkipTwoSpaces(' ', ' ', hashed);
    assert hashed[0] == '#';
    SkipSpaceSolid(hashed);
  }

  lemma SkipTwoSpaces(x: char, y: char, s: string)
    requires IsSpace(x) && IsSpace(y)
    ensures SkipSpace([x, y] + s) == SkipSpace(s)
  {
    assert [x, y] + s == [x] + ([y] + s);
    SkipSpaceCons(x, [y] + s);
    SkipSpaceCons(y, s);
  }

  lemma SkipOneSpace(c: string)
    requires c != [] && !IsSpace(c[0])
    ensures SkipSpace(" " + c) == c
  {
    SkipSpaceCons(' ', c);
    SkipSpaceSolid(c);
  }

  /** The comment text scans back to the comment group. */
  lemma CommentOfText(c: string)
    requires PlainComment(c)
    ensures var u := CommentText(c);
      u == [] || (u[0] == ' ' && SkipSpace(u) != [] && SkipSpace(u)[0] == '#')
    ensures c == [] ==> CommentText(c) == []
    ensures c != [] ==>
      && SkipSpace(CommentText(c)) == "# " + c
      && SkipSpace(SkipSpace(CommentText(c))[1..]) == c
      && EndsSolid(CommentText(c))
      && '\n' !in SkipSpace(CommentText(c))
  {
    StrippedEnds(c);
    if c != [] {
      SkipCommentLead(c);
      SkipOneSpace(c);
      var u := CommentText(c);
      assert ("# " + c)[1..] == " " + c;
      assert u[|u| - 1] == c[|c| - 1];
    }
  }

  /** The bonus positions and comment as `Render` writes them. */
  function BonusesText(p: Params): string
  {
    RenderBonuses(p.bonusDice) + CommentText(p.comment)
  }

  /** The rendered bonus positions and comment start with `+`, with white
      space or not at all, and scanning past the white space reaches `+`,
      `#` or the end. */
  lemma BonusesTextShape(p: Params)
    requires PlainComment(p.comment)
    ensures var v := BonusesText(p);
      v == [] || v[0] == '+' || v[0] == ' '
    ensures var sv := SkipSpace(BonusesText(p));
      sv == [] || sv[0] == '+' || sv[0] == '#'
  {
    var v := BonusesText(p);
    var u := CommentText(p.comment);
    CommentOfText(p.comment);
    RenderBonusesShape(p.bonusDice);
    if RenderBonuses(p.bonusDice) == [] {
      assert v == u;
    } else {
      assert v[0] == RenderBonuses(p.bonusDice)[0];
      SkipSpaceSolid(v);
    }
  }

  /** `<k` or `>k` scans back to the matching extras group. */
  lemma MatchExtrasOfSign(c: char, k: nat, v: string)
    requires c == '<' || c == '>'
    requires k >= 1
    requires v == [] || !IsDigit(v[0])
    ensures MatchExtras(SkipSpace([c] + (NatToString(k) + v)))
         == Some(if c == '<' then (Some(k), None, v) else (None, Some(k), v))
  {
    var n := NatToString(k);
    var w := [c] + (n + v);
    SkipSpaceSolid(w);
    assert w[1..] == n + v;
    assert (n + v)[0] == n[0];
    SkipSpaceSolid(n + v);
    PositiveIntOfText(k, v);
  }

  /** The rendered extras scan back to the extras groups, leaving the bonus
      text. */
  lemma MatchExtrasOfText(p: Params)
    requires Valid(p) && PlainComment(p.comment)
    ensures MatchExtras(SkipSpace(ExtrasText(p) + BonusesText(p)))
         == Some((if p.extraStd != 0 then Some(p.extraStd) else None,
                  if p.extraBmp != 0 then Some(p.extraBmp) else None,
                  if p.extraStd != 0 || p.extraBmp != 0 then BonusesText(p) else SkipSpace(BonusesText(p))))
  {
    if p.extraStd != 0 {
      MatchExtraStdOfText(p);
    } else if p.extraBmp != 0 {
      MatchExtraBmpOfText(p);
    } else {
      assert ExtrasText(p) + BonusesText(p) == BonusesText(p);
      BonusesTextShape(p);
    }
  }

  lemma ConcatAssoc(a: string, b: string, c: string)
    ensures (a + b) + c == a + (b + c)
  {
  }

  /** The extras text of a valid record with non-zero extras. */
  lemma ExtrasTextSigned(p: Params)
    requires Valid(p)
    ensures p.extraStd != 0 ==> ExtrasText(p) == ['<'] + NatToString(p.extraStd)
    ensures p.extraStd == 0 && p.extraBmp != 0 ==> ExtrasText(p) == ['>'] + NatToString(p.extraBmp)
  {
  }

  lemma MatchExtraStdOfText(p: Params)
    requires Valid(p) && PlainComment(p.comment)
    requires p.extraStd != 0
    ensures MatchExtras(SkipSpace(ExtrasText(p) + BonusesText(p))) == Some((Some(p.extraStd), None, BonusesText(p)))
  {
    var v := BonusesText(p);
    var n := NatToString(p.extraStd);
    ExtrasTextSigned(p);
    ConcatAssoc(['<'], n, v);
    BonusesTextShape(p);
    MatchExtrasOfSign('<', p.extraStd, v);
  }

  lemma MatchExtraBmpOfText(p: Params)
    requires Valid(p) && PlainComment(p.comment)
    requires p.extraStd == 0 && p.extraBmp != 0
    ensures MatchExtras(SkipSpace(ExtrasText(p) + BonusesText(p))) == Some((None, Some(p.extraBmp), BonusesText(p)))
  {
    var v := BonusesText(p);
    var n := NatToString(p.extraBmp);
    ExtrasTextSigned(p);
    ConcatAssoc(['>'], n, v);
    BonusesTextShape(p);
    MatchExtrasOfSign('>', p.extraBmp, v);
  }

  /** The tail after the set die scans back to the extras, bonus positions
      and comment of the record. */
  /** What matching the rendered line of a valid record captures. */
  function Captures(p: Params): Notated
    requires Valid(p)
  {
    Notated(None, p.numStd, p.numBmp, p.setDie + 1,
            if p.extraStd != 0 then Some(p.extraStd) else None,
            if p.extraBmp != 0 then Some(p.extraBmp) else None,
            Written(p.bonusDice),
            if p.comment != [] then Some(p.comment) else None)
  }

  /** The extras groups of the rendered line are the captured ones, and
      what follows them scans like the bonus text. */
  lemma ExtrasOfCaptures(p: Params) returns (s7: string)
    requires Valid(p) && PlainComment(p.comment)
    ensures MatchExtras(SkipSpace(ExtrasText(p) + BonusesText(p))) == Some((Captures(p).exStd, Captures(p).exBmp, s7))
    ensures SkipSpace(s7) == SkipSpace(BonusesText(p))
  {
    MatchExtrasOfText(p);
    s7 := MatchExtras(SkipSpace(ExtrasText(p) + BonusesText(p))).value.2;
    SkipSpaceIdempotent(BonusesText(p));
  }

  /** The bonus groups of the rendered line are the captured ones, and
      what follows them is nothing or the captured comment. */
  lemma BonusesOfCaptures(p: Params)
    requires Valid(p) && PlainComment(p.comment)
    ensures var s8 := SkipSpace(CommentText(p.comment));
      && MatchBonuses(SkipSpace(BonusesText(p))) == (Captures(p).bonuses, s8)
      && (Captures(p).comment.None? ==> s8 == [])
      && (Captures(p).comment.Some? ==>
            s8 != [] && s8[0] == '#' && '\n' !in s8 && SkipSpace(s8[1..]) == Captures(p).comment.value)
  {
    CommentOfText(p.comment);
    MatchBonusesOfText(p.bonusDice, CommentText(p.comment));
  }

  /** `MatchTail` once the extras and the bonus positions have been
      matched: what follows is nothing, or a comment. */
  lemma MatchTailOfParts(override: Option<string>, std: nat, bmp: nat, setPos: nat, s: string,
                         exStd: Option<nat>, exBmp: Option<nat>, s7: string,
                         bonuses: seq<Number>, s8: string, comment: Option<string>)
    requires MatchExtras(s) == Some((exStd, exBmp, s7))
    requires MatchBonuses(SkipSpace(s7)) == (bonuses, s8)
    requires comment.None? ==> s8 == []
    requires comment.Some? ==> s8 != [] && s8[0] == '#' && '\n' !in s8 && SkipSpace(s8[1..]) == comment.value
    ensures MatchTail(override, std, bmp, setPos, s) == Some(Notated(override, std, bmp, setPos, exStd, exBmp, bonuses, comment))
  {
  }

  /** The rendered line from the standard count onwards. */
  function PoolText(p: Params): string
  {
    IntToString(p.numStd) + ("s" + (IntToString(p.numBmp) + ("b@" + (IntToString(p.setDie + 1)
      + (ExtrasText(p) + BonusesText(p))))))
  }

  /** `NsMb@K` followed by `w`. */
  function CountsText(std: nat, bmp: nat, setPos: nat, w: string): string
  {
    NatToString(std) + ("s" + (NatToString(bmp) + ("b@" + (NatToString(setPos) + w))))
  }

  /** A valid record's line from the standard count onwards is its counts
      followed by the extras, bonus positions and comment. */
  lemma PoolTextIsCounts(p: Params)
    requires Valid(p)
    ensures PoolText(p) == CountsText(p.numStd, p.numBmp, p.setDie + 1, ExtrasText(p) + BonusesText(p))
  {
  }

  /** `NsMb@K` followed by a tail that does not start with a digit scans the
      three counts and hands the tail on. */
  lemma MatchPoolOfParts(override: Option<string>, std: nat, bmp: nat, setPos: nat, w: string)
    requires std >= 1 && setPos >= 1
    requires w == [] || !IsDigit(w[0])
    ensures MatchPool(override, CountsText(std, bmp, setPos, w)) == MatchTail(override, std, bmp, setPos, SkipSpace(w))
  {
    var z := NatToString(bmp) + ("b@" + (NatToString(setPos) + w));
    MatchBumpOfParts(override, std, bmp, setPos, w);
    assert z[0] == NatToString(bmp)[0];
    MatchPoolStep(override, std, z);
  }

  lemma MatchPoolStep(override: Option<string>, std: nat, z: string)
    requires std >= 1
    requires z != [] && IsDigit(z[0])
    ensures MatchPool(override, NatToString(std) + ("s" + z)) == MatchBump(override, std, z)
  {
    assert ("s" + z)[1..] == z;
    PositiveIntOfText(std, "s" + z);
    SkipSpaceSolid("s" + z);
    SkipSpaceSolid(z);
  }

  lemma MatchBumpOfParts(override: Option<string>, std: nat, bmp: nat, setPos: nat, w: string)
    requires setPos >= 1
    requires w == [] || !IsDigit(w[0])
    ensures MatchBump(override, std, NatToString(bmp) + ("b@" + (NatToString(setPos) + w)))
         == MatchTail(override, std, bmp, setPos, SkipSpace(w))
  {
    var x := NatToString(setPos) + w;
    var y := "b@" + x;
    assert y[0] == 'b' && y[1..] == "@" + x;
    MatchBumpStep(override, std, bmp, y);
    assert ("@" + x)[0] == '@';
    SkipSpaceSolid("@" + x);
    MatchSetOfParts(override, std, bmp, setPos, w);
  }

  /** The bump count and a `b` hand the rest after the `b` to the set-die
      group. */
  lemma MatchBumpStep(override: Option<string>, std: nat, bmp: nat, y: string)
    requires y != [] && y[0] == 'b'
    ensures MatchBump(override, std, NatToString(bmp) + y) == MatchSet(override, std, bmp, SkipSpace(y[1..]))
  {
    BumpCountOfText(bmp, y);
    SkipSpaceSolid(y);
  }

  /** `@K` scans the set-die position and hands the rest to the tail. */
  lemma MatchSetOfParts(override: Option<string>, std: nat, bmp: nat, setPos: nat, w: string)
    requires setPos >= 1
    requires w == [] || !IsDigit(w[0])
    ensures MatchSet(override, std, bmp, "@" + (NatToString(setPos) + w))
         == MatchTail(override, std, bmp, setPos, SkipSpace(w))
  {
    var x := NatToString(setPos) + w;
    assert ("@" + x)[1..] == x;
    assert x[0] == NatToString(setPos)[0];
    SkipSpaceSolid(x);
    PositiveIntOfText(setPos, w);
  }

  /** The text after the set die does not start with a digit. */
  lemma TailTextShape(p: Params)
    requires PlainComment(p.comment)
    ensures var w := ExtrasText(p) + BonusesText(p);
      w == [] || !IsDigit(w[0])
  {
    var w := ExtrasText(p) + BonusesText(p);
    BonusesTextShape(p);
    if ExtrasText(p) != [] {
      assert w[0] == ExtrasText(p)[0];
    } else {
      assert w == BonusesText(p);
    }
  }

  lemma MatchPoolOfText(p: Params)
    requires Valid(p) && PlainComment(p.comment)
    ensures MatchPool(None, PoolText(p))
         == MatchTail(None, p.numStd, p.numBmp, p.setDie + 1, SkipSpace(ExtrasText(p) + BonusesText(p)))
  {
    PoolTextIsCounts(p);
    TailTextShape(p);
    var w := ExtrasText(p) + BonusesText(p);
    MatchPoolOfParts(None, p.numStd, p.numBmp, p.setDie + 1, w);
  }

  lemma EndsSolidConcat(a: string, b: string)
    requires EndsSolid(b) || (b == [] && EndsSolid(a))
    ensures EndsSolid(a + b)
  {
    if b == [] {
      assert a + b == a;
    } else {
      assert (a + b)[|a + b| - 1] == b[|b| - 1];
    }
  }

  lemma NatToStringSolid(n: nat)
    ensures EndsSolid(NatToString(n))
  {
    var s := NatToString(n);
    assert IsDigit(s[|s| - 1]);
  }

  /** The text after the set die ends with a character that is not white
      space, if it is not empty. */
  lemma TailTextSolid(p: Params)
    requires Valid(p) && PlainComment(p.comment)
    ensures var w := ExtrasText(p) + BonusesText(p);
      w == [] || EndsSolid(w)
  {
    var u := CommentText(p.comment);
    var b := RenderBonuses(p.bonusDice);
    var e := ExtrasText(p);
    CommentOfText(p.comment);
    RenderBonusesShape(p.bonusDice);
    assert b + u == [] || EndsSolid(b + u) by {
      if u != [] { EndsSolidConcat(b, u); }
      else if b != [] { EndsSolidConcat(b, u); }
      else { assert b + u == []; }
    }
    if b + u != [] {
      EndsSolidConcat(e, b + u);
    } else if e != [] {
      var k := if p.extraStd != 0 then p.extraStd else p.extraBmp;
      assert e == [e[0]] + NatToString(k);
      NatToStringSolid(k);
      EndsSolidConcat([e[0]], NatToString(k));
      EndsSolidConcat(e, b + u);
    } else {
      assert e + (b + u) == [];
    }
  }

  /** The rendered line has no white space to strip at either end. */
  lemma PoolTextSolid(p: Params)
    requires Valid(p) && PlainComment(p.comment)
    ensures PoolText(p) != [] && IsDigit(PoolText(p)[0]) && EndsSolid(PoolText(p))
  {
    var w := ExtrasText(p) + BonusesText(p);
    PoolTextIsCounts(p);
    TailTextSolid(p);
    CountsTextSolid(p.numStd, p.numBmp, p.setDie + 1, w);
  }

  lemma CountsTextSolid(std: nat, bmp: nat, setPos: nat, w: string)
    requires w == [] || EndsSolid(w)
    ensures var t := CountsText(std, bmp, setPos, w);
      t != [] && IsDigit(t[0]) && EndsSolid(t)
  {
    var x := NatToString(setPos) + w;
    var y := "b@" + x;
    var z := NatToString(bmp) + y;
    var t := NatToString(std) + ("s" + z);
    NatToStringSolid(setPos);
    EndsSolidConcat(NatToString(setPos), w);
    EndsSolidConcat("b@", x);
    EndsSolidConcat(NatToString(bmp), y);
    EndsSolidConcat("s", z);
    EndsSolidConcat(NatToString(std), "s" + z);
    assert t[0] == NatToString(std)[0];
  }

  /** Without an override die the rendered line is `PoolText`. */
  lemma RenderIsPoolText(p: Params)
    requires p.overrideDieStr.None?
    ensures Render(p) == PoolText(p)
  {
    var o, a, c, e := OverrideText(p), IntToString(p.numStd), IntToString(p.numBmp), IntToString(p.setDie + 1);
    var f, g, h := ExtrasText(p), RenderBonuses(p.bonusDice), CommentText(p.comment);
    assert o == "";
    assert Render(p) == o + a + "s" + c + "b@" + e + f + g + h;
    assert PoolText(p) == a + ("s" + (c + ("b@" + (e + (f + (g + h))))));
    NestRight(o, a, "s", c, "b@", e, f, g, h);
  }

  lemma NestRight(o: string, a: string, b: string, c: string, d: string, e: string, f: string, g: string, h: string)
    requires o == []
    ensures o + a + b + c + d + e + f + g + h == a + (b + (c + (d + (e + (f + (g + h))))))
  {
    assert o + a == a;
  }

  /** The match of a rendered line captures the record's fields. */
  lemma MatchNotationOfText(p: Params)
    requires Valid(p) && PlainComment(p.comment)
    ensures MatchNotation(PoolText(p)) == Some(Captures(p))
  {
    var m := Captures(p);
    assert Notated(None, p.numStd, p.numBmp, p.setDie + 1, m.exStd, m.exBmp, m.bonuses, m.comment) == m;
    PoolTextSolid(p);
    MatchPoolOfText(p);
    var s7 := ExtrasOfCaptures(p);
    BonusesOfCaptures(p);
    MatchNotationOfParts(PoolText(p), p.numStd, p.numBmp, p.setDie + 1, SkipSpace(ExtrasText(p) + BonusesText(p)),
                         m.exStd, m.exBmp, s7, m.bonuses, SkipSpace(CommentText(p.comment)), m.comment);
  }

  /** A line that starts with the counts scans to the groups its pieces
      scan to. */
  lemma MatchNotationOfParts(t: string, std: nat, bmp: nat, setPos: nat, s: string,
                             exStd: Option<nat>, exBmp: Option<nat>, s7: string,
                             bonuses: seq<Number>, s8: string, comment: Option<string>)
    requires t != [] && IsDigit(t[0])
    requires MatchPool(None, t) == MatchTail(None, std, bmp, setPos, s)
    requires MatchExtras(s) == Some((exStd, exBmp, s7))
    requires MatchBonuses(SkipSpace(s7)) == (bonuses, s8)
    requires comment.None? ==> s8 == []
    requires comment.Some? ==> s8 != [] && s8[0] == '#' && '\n' !in s8 && SkipSpace(s8[1..]) == comment.value
    ensures MatchNotation(t) == Some(Notated(None, std, bmp, setPos, exStd, exBmp, bonuses, comment))
  {
    MatchNotationStep(t);
    MatchTailOfParts(None, std, bmp, setPos, s, exStd, exBmp, s7, bonuses, s8, comment);
  }

  /** A line that starts with a digit has no override group. */
  lemma MatchNotationStep(t: string)
    requires t != [] && IsDigit(t[0])
    ensures MatchNotation(t) == MatchPool(None, t)
  {
    assert MatchOverride(t) == Some((None, t));
    SkipSpaceSolid(t);
  }

  /** Building from those captures gives the record back. */
  lemma BuildOfCaptures(p: Params, overrides: map<string, Die>)
    requires Valid(p) && PlainComment(p.comment)
    requires p.overrideDie.None? && p.overrideDieStr.None?
    ensures Build(Captures(p), overrides, BonusDiceAsWritten(Written(p.bonusDice)))
         == Some(p)
  {
    assert BonusDiceAsWritten(Written(p.bonusDice)) == p.bonusDice;
    StrippedIsStrip(p.comment);
    NormaliseIdempotent(p);
  }

  lemma StrippedIsStrip(c: string)
    requires PlainComment(c)
    ensures Strip(c) == c
  {
  }

  /** Rendering a valid record without an override die and with a plain
      comment, then parsing the line, gives the record back: every numeric
      field, the one-indexed positions, the extras and the comment. */
  lemma RenderParseRoundTrip(p: Params, overrides: map<string, Die>)
    requires Valid(p) && PlainComment(p.comment)
    requires p.overrideDie.None? && p.overrideDieStr.None?
    ensures ParseLine(Render(p), overrides) == Some(p)
  {
    var t := PoolText(p);
    RenderIsPoolText(p);
    PoolTextSolid(p);
    SkipSpaceSolid(t);
    assert Strip(t) == t;
    MatchNotationOfText(p);
    ParseLineOfMatch(t, Captures(p), overrides);
    BuildOfCaptures(p, overrides);
  }

  // ---------------------------------------------------------------------------
  // Signed bonus positions

  /** The signed bonus position `+@+1` is scanned as the number 1 with a sign. */
  lemma SignedBonusScanned()
    ensures MatchBonuses("+@+1") == ([Number(true, 1)], [])
  {
    SkipSpaceSolid("@+1");
    SkipSpaceSolid("+1");
    assert "+1"[1..] == "1";
    SpanDigitsConcat("1", []);
    assert "1" + [] == "1";
    assert DigitsValue("1") == 1;
    assert PositiveInt("+1") == Some((Number(true, 1), []));
    MatchBonusesOne("@+1", "+1", Number(true, 1), []);
    assert "+@+1" == "+" + "@+1";
    assert SkipSpace([]) == [] && MatchBonuses([]) == ([], []);
    assert [Number(true, 1)] + [] == [Number(true, 1)];
  }

  /** One bonus position `+@n` followed by `rest`. */
  lemma MatchBonusesOne(t: string, u: string, n: Number, rest: string)
    requires t == "@" + u
    requires SkipSpace(t) == t && SkipSpace(u) == u
    requires PositiveInt(u) == Some((n, rest))
    ensures MatchBonuses("+" + t) == ([n] + MatchBonuses(SkipSpace(rest)).0, MatchBonuses(SkipSpace(rest)).1)
  {
    assert ("+" + t)[1..] == t;
    assert t[1..] == u;
  }

  lemma SignedBonusTail()
    ensures MatchTail(None, 1, 0, 1, "+@+1") == Some(Notated(None, 1, 0, 1, None, None, [Number(true, 1)], None))
  {
    SkipSpaceSolid("+@+1");
    SignedBonusScanned();
  }

  lemma SignedBonusMatched(line: string)
    requires line == "1s0b@1+@+1"
    ensures line != [] && Strip(line) == line
    ensures MatchNotation(line) == Some(Notated(None, 1, 0, 1, None, None, [Number(true, 1)], None))
  {
    SkipSpaceSolid(line);
    assert SkipSpaceRight(line) == line;
    SignedBonusLineParts(line);
    MatchPoolOfParts(None, 1, 0, 1, "+@+1");
    SkipSpaceSolid("+@+1");
    SignedBonusTail();
  }

  lemma SignedBonusLineParts(line: string)
    requires line == "1s0b@1+@+1"
    ensures line == CountsText(1, 0, 1, "+@+1")
  {
    assert NatToString(1) == "1" && NatToString(0) == "0";
  }

  /** Without an override, extras or comment, building is constructing. */
  lemma BuildPlain(m: Notated, overrides: map<string, Die>, bonusDice: seq<int>)
    requires m.override.None? && m.comment.None? && m.exStd.None? && m.exBmp.None?
    ensures Build(m, overrides, bonusDice)
         == match Construct(m.std, m.bmp, m.setPos - 1, bonusDice, 0, 0, "", None, None)
            case Success(p) => Some(p)
            case Failure(_) => None
  {
  }

  /** The record of the one-die pool `1s0b@1` with the given bonus dice. */
  lemma ConstructSmall(bonusDice: seq<int>)
    requires bonusDice == [] || bonusDice == [0]
    ensures Construct(1, 0, 0, bonusDice, 0, 0, "", None, None) == Success(Params(1, 0, 0, bonusDice, 0, 0, "", None, None))
  {
    var p := Params(1, 0, 0, bonusDice, 0, 0, "", None, None);
    assert Valid(p);
    NormaliseIdempotent(p);
  }

  /** A line that is already stripped and matches parses to the record
      built from its captures. */
  lemma ParseLineOfMatch(line: string, m: Notated, overrides: map<string, Die>)
    requires line != [] && Strip(line) == line
    requires MatchNotation(line) == Some(m)
    ensures ParseLine(line, overrides) == Build(m, overrides, BonusDiceAsWritten(m.bonuses))
    ensures ParseLineIntended(line, overrides) == Build(m, overrides, BonusDice(m.bonuses))
  {
  }

  /** `BONUS_RE` as written drops a bonus position written with a sign, which
      `NOTATION_RE` accepts: `1s0b@1+@+1` names die 1 as a bonus die, but the
      line yields a record without bonus dice. */
  lemma SignedBonusDropped(line: string)
    requires line == "1s0b@1+@+1"
    ensures ParseLine(line, map[]) == Some(Params(1, 0, 0, [], 0, 0, "", None, None))
  {
    SignedBonusMatched(line);
    var m := Notated(None, 1, 0, 1, None, None, [Number(true, 1)], None);
    ParseLineOfMatch(line, m, map[]);
    assert BonusDiceAsWritten([Number(true, 1)]) == [];
    BuildPlain(m, map[], []);
    ConstructSmall([]);
  }

  /** With signed bonus positions kept, the same line names die 1 (index 0)
      as a bonus die. */
  lemma SignedBonusKept(line: string)
    requires line == "1s0b@1+@+1"
    ensures ParseLineIntended(line, map[]) == Some(Params(1, 0, 0, [0], 0, 0, "", None, None))
  {
    var m := SignedBonusCaptures(line);
    BuildSignedBonus(m);
  }

  /** The captures of `1s0b@1+@+1`, and what the corrected reading builds
      from them. */
  lemma SignedBonusCaptures(line: string) returns (m: Notated)
    requires line == "1s0b@1+@+1"
    ensures m == Notated(None, 1, 0, 1, None, None, [Number(true, 1)], None)
    ensures ParseLineIntended(line, map[]) == Build(m, map[], BonusDice(m.bonuses))
  {
    SignedBonusMatched(line);
    m := Notated(None, 1, 0, 1, None, None, [Number(true, 1)], None);
    ParseLineOfMatch(line, m, map[]);
  }

  lemma BuildSignedBonus(m: Notated)
    requires m == Notated(None, 1, 0, 1, None, None, [Number(true, 1)], None)
    ensures Build(m, map[], BonusDice(m.bonuses)) == Some(Params(1, 0, 0, [0], 0, 0, "", None, None))
  {
    assert BonusDice(m.bonuses) == [0] by {
      assert |BonusDice(m.bonuses)| == 1 && BonusDice(m.bonuses)[0] == 0;
    }
    BuildPlain(m, map[], [0]);
    ConstructSmall([0]);
  }
}
