/** Hand-written matchers for the regular expressions the schedule parser
    uses. Each matcher follows the backtracking order of a JavaScript regular
    expression: `\d{1,2}` first tries two digits and then one, an optional
    group is tried before it is skipped, and `String.prototype.match` reports
    the match that starts leftmost. */
module Patterns {
  import opened Text

  /** What `text.match(re)` returns: where the match starts, `match[0]`, and
      the two capture groups (`None` for `undefined`). */
  datatype Match = Match(start: nat, whole: string, group1: Option<string>, group2: Option<string>)

  datatype Pattern =
    | HourMinute              // (\d{1,2})시(?:\s*(\d{1,2})분)?
    | ColonTime               // (\d{1,2}):(\d{2})
    | Meridiem(marker: string) // <marker>\s*(\d{1,2})시(?:\s*(\d{1,2})분)?
    | Literal(word: string)   // a fixed word such as 오늘
    | MonthDay                // (\d{1,2})월\s*(\d{1,2})일
    | SlashDate               // (\d{1,2})\/(\d{1,2})
    | WeekdayName             // (월|화|수|목|금|토|일)요일

  /** A capture group of one or two ASCII digits, when it participated. */
  predicate NumberGroup(g: Option<string>) {
    g.Some? ==> 1 <= |g.value| <= 2 && AllDigits(g.value)
  }

  predicate DigitAt(s: string, i: int) {
    0 <= i < |s| && IsDigit(s[i])
  }

  /** `(\d{1,2})` at i followed by the literal `lit`: how many digits the
      group takes (two are tried before one), or 0 when neither fits. */
  function DigitsThen(s: string, i: nat, lit: string): (n: nat)
    ensures n <= 2
    ensures n > 0 ==> i + n + |lit| <= |s| && AllDigits(s[i..i + n]) && OccursAt(s, lit, i + n)
  {
    if DigitAt(s, i) && DigitAt(s, i + 1) && OccursAt(s, lit, i + 2) then 2
    else if DigitAt(s, i) && OccursAt(s, lit, i + 1) then 1
    else 0
  }

  /** Greedy `\s*` from i. Taking fewer spaces never helps the patterns here,
      since what follows each `\s*` is a digit. */
  function SkipSpaces(s: string, i: nat): (j: nat)
    requires i <= |s|
    ensures i <= j <= |s|
    ensures forall k :: i <= k < j ==> IsSpace(s[k])
    ensures j < |s| ==> !IsSpace(s[j])
    decreases |s| - i
  {
    if i < |s| && IsSpace(s[i]) then SkipSpaces(s, i + 1) else i
  }

  /** The end of a match of `(\d{1,2})시(?:\s*(\d{1,2})분)?` and its groups. */
  datatype HourPart = HourPart(end: nat, hour: string, minute: Option<string>)

  function HourAt(s: string, i: nat): (r: Option<HourPart>)
    requires i <= |s|
    ensures r.Some? ==> i < r.value.end <= |s|
    ensures r.Some? ==> NumberGroup(Some(r.value.hour)) && NumberGroup(r.value.minute)
  {
    var n := DigitsThen(s, i, "시");
    if n == 0 then None
    else
      var j := i + n + 1;
      var k := SkipSpaces(s, j);
      var m := DigitsThen(s, k, "분");
      if m == 0 then Some(HourPart(j, s[i..i + n], None))
      else Some(HourPart(k + m + 1, s[i..i + n], Some(s[k..k + m])))
  }

  /** What every match of `p` at i satisfies: it is the text found at i,
      and its capture groups are of the kinds the pattern declares. */
  predicate Shaped(p: Pattern, s: string, i: nat, m: Match) {
    && m.start == i && m.whole != [] && OccursAt(s, m.whole, i)
    && NumberGroup(m.group2)
    && (!p.WeekdayName? ==> NumberGroup(m.group1))
    && (!p.Literal? ==> m.group1.Some?)
    && ((p.ColonTime? || p.MonthDay? || p.SlashDate?) ==> m.group2.Some?)
    && (p.Literal? ==> m.whole == p.word && m.group1.None? && m.group2.None?)
    && (p.WeekdayName? ==> m.group2.None? && |m.group1.value| == 1 && m.group1.value[0] in WeekdayChars)
  }

  function HourMinuteAt(s: string, i: nat): (r: Option<Match>)
    requires i <= |s|
    ensures r.Some? ==> Shaped(HourMinute, s, i, r.value)
  {
    match HourAt(s, i)
    case None => None
    case Some(h) => Some(Match(i, s[i..h.end], Some(h.hour), h.minute))
  }

  lemma TwoDigits(s: string, i: nat)
    requires DigitAt(s, i) && DigitAt(s, i + 1)
    ensures NumberGroup(Some(s[i..i + 2]))
  {
    assert s[i..i + 2][0] == s[i] && s[i..i + 2][1] == s[i + 1];
  }

  function ColonTimeAt(s: string, i: nat): (r: Option<Match>)
    requires i <= |s|
    ensures r.Some? ==> Shaped(ColonTime, s, i, r.value)
  {
    if DigitAt(s, i) && DigitAt(s, i + 1) && i + 2 < |s| && s[i + 2] == ':' &&
       DigitAt(s, i + 3) && DigitAt(s, i + 4)
    then
      TwoDigits(s, i);
      TwoDigits(s, i + 3);
      Some(Match(i, s[i..i + 5], Some(s[i..i + 2]), Some(s[i + 3..i + 5])))
    else if DigitAt(s, i) && i + 1 < |s| && s[i + 1] == ':' && DigitAt(s, i + 2) && DigitAt(s, i + 3)
    then
      TwoDigits(s, i + 2);
      assert AllDigits(s[i..i + 1]);
      Some(Match(i, s[i..i + 4], Some(s[i..i + 1]), Some(s[i + 2..i + 4])))
    else None
  }

  function MeridiemAt(marker: string, s: string, i: nat): (r: Option<Match>)
    requires i <= |s|
    ensures r.Some? ==> Shaped(Meridiem(marker), s, i, r.value)
  {
    if OccursAt(s, marker, i) then
      var j := SkipSpaces(s, i + |marker|);
      match HourAt(s, j)
      case None => None
      case Some(h) => Some(Match(i, s[i..h.end], Some(h.hour), h.minute))
    else None
  }

  function LiteralAt(word: string, s: string, i: nat): (r: Option<Match>)
    requires i <= |s|
    ensures r.Some? ==> Shaped(Literal(word), s, i, r.value)
  {
    if word != [] && OccursAt(s, word, i) then Some(Match(i, word, None, None)) else None
  }

  function MonthDayAt(s: string, i: nat): (r: Option<Match>)
    requires i <= |s|
    ensures r.Some? ==> Shaped(MonthDay, s, i, r.value)
  {
    var n := DigitsThen(s, i, "월");
    if n == 0 then None
    else
      var k := SkipSpaces(s, i + n + 1);
      var m := DigitsThen(s, k, "일");
      if m == 0 then None
      else Some(Match(i, s[i..k + m + 1], Some(s[i..i + n]), Some(s[k..k + m])))
  }

  function SlashDateAt(s: string, i: nat): (r: Option<Match>)
    requires i <= |s|
    ensures r.Some? ==> Shaped(SlashDate, s, i, r.value)
  {
    var n := DigitsThen(s, i, "/");
    if n == 0 then None
    else
      var j := i + n + 1;
      var m := if DigitAt(s, j) && DigitAt(s, j + 1) then 2 else if DigitAt(s, j) then 1 else 0;
      if m == 0 then None
      else Some(Match(i, s[i..j + m], Some(s[i..i + n]), Some(s[j..j + m])))
  }

  /** The alternatives of `(월|화|수|목|금|토|일)`. */
  const WeekdayChars: string := "월화수목금토일"

  function WeekdayNameAt(s: string, i: nat): (r: Option<Match>)
    requires i <= |s|
    ensures r.Some? ==> Shaped(WeekdayName, s, i, r.value)
  {
    if i < |s| && s[i] in WeekdayChars && OccursAt(s, "요일", i + 1)
    then Some(Match(i, s[i..i + 3], Some([s[i]]), None))
    else None
  }

  /** The match of `p` that starts exactly at i, if there is one. */
  function MatchAt(p: Pattern, s: string, i: nat): (r: Option<Match>)
    requires i <= |s|
    ensures r.Some? ==> Shaped(p, s, i, r.value)
  {
    match p
    case HourMinute => HourMinuteAt(s, i)
    case ColonTime => ColonTimeAt(s, i)
    case Meridiem(marker) => MeridiemAt(marker, s, i)
    case Literal(word) => LiteralAt(word, s, i)
    case MonthDay => MonthDayAt(s, i)
    case SlashDate => SlashDateAt(s, i)
    case WeekdayName => WeekdayNameAt(s, i)
  }

  /** The leftmost match of `p` starting at or after i. */
  function Search(p: Pattern, s: string, i: nat): (r: Option<Match>)
    requires i <= |s|
    ensures r.Some? ==> i <= r.value.start <= |s| && MatchAt(p, s, r.value.start) == r
    ensures r.Some? ==> forall j :: i <= j < r.value.start ==> MatchAt(p, s, j).None?
    ensures r.None? ==> forall j :: i <= j <= |s| ==> MatchAt(p, s, j).None?
    decreases |s| - i
  {
    match MatchAt(p, s, i)
    case Some(m) => Some(m)
    case None => if i == |s| then None else Search(p, s, i + 1)
  }

  /** `s.match(p)` for a regular expression without the `g` flag. */
  function Exec(p: Pattern, s: string): Option<Match> {
    Search(p, s, 0)
  }

  /** The first pattern of `ps`, from index k on, that matches somewhere in
      `s`, with its match: the `for ... of` loop with `break` on a match. */
  function FirstMatch(ps: seq<Pattern>, s: string, k: nat): (r: Option<(nat, Match)>)
    requires k <= |ps|
    ensures r.Some? ==> k <= r.value.0 < |ps| && Exec(ps[r.value.0], s) == Some(r.value.1)
    ensures r.Some? ==> forall j :: k <= j < r.value.0 ==> Exec(ps[j], s).None?
    ensures r.None? <==> forall j :: k <= j < |ps| ==> Exec(ps[j], s).None?
    decreases |ps| - k
  {
    if k == |ps| then None
    else
      match Exec(ps[k], s)
      case Some(m) => Some((k, m))
      case None => FirstMatch(ps, s, k + 1)
  }

  /** A match found anywhere makes the leftmost search succeed. */
  lemma SearchFinds(p: Pattern, s: string, j: nat)
    requires j <= |s|
    requires MatchAt(p, s, j).Some?
    ensures Exec(p, s).Some?
    ensures Exec(p, s).value.start <= j
  {
  }

  /** Every match of `<marker>\s*(\d{1,2})시...` contains a match of the bare
      pattern `(\d{1,2})시(?:\s*(\d{1,2})분)?`, which therefore matches too,
      with the same hour and minute groups when it is not found earlier. */
  lemma MeridiemImpliesHourMinute(marker: string, s: string)
    requires Exec(Meridiem(marker), s).Some?
    ensures Exec(HourMinute, s).Some?
  {
    var m := Exec(Meridiem(marker), s).value;
    var j := SkipSpaces(s, m.start + |marker|);
    assert MatchAt(HourMinute, s, j).Some?;
    SearchFinds(HourMinute, s, j);
  }
}
