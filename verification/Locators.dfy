/**
  Entity ids and page or time locators (src/syllva/domain/ids.py, src/syllva/domain/models.py).
  The regular expressions are written out as recognizers.
*/
module Locators {
  import opened Wrappers
  import opened Decimal

  // ---------------------------------------------------------------------------------------
  // Entity ids: CODE-Tnn

  datatype EntityId = EntityId(courseCode: string, entityType: char, sequence: nat)

  predicate IsUpper(c: char) { 'A' <= c <= 'Z' }

  predicate IsCourseCode(s: string) {
    s != [] && IsUpper(s[0]) && forall i :: 0 <= i < |s| ==> IsUpper(s[i]) || IsDigit(s[i])
  }

  predicate ValidId(id: EntityId) { IsCourseCode(id.courseCode) && IsUpper(id.entityType) && id.sequence <= 99 }

  function TwoDigits(n: nat): (s: string)
    requires n <= 99
    ensures |s| == 2 && IsDigit(s[0]) && IsDigit(s[1])
  {
    [CharOf(n / 10), CharOf(n % 10)]
  }

  function PairValue(c: char, d: char): (n: nat)
    requires IsDigit(c) && IsDigit(d)
    ensures n <= 99 && TwoDigits(n) == [c, d]
  {
    10 * DigitOf(c) + DigitOf(d)
  }

  lemma PairOfTwoDigits(n: nat)
    requires n <= 99
    ensures PairValue(TwoDigits(n)[0], TwoDigits(n)[1]) == n
  {
  }

  function IdText(id: EntityId): string
    requires ValidId(id)
  {
    id.courseCode + ['-', id.entityType] + TwoDigits(id.sequence)
  }

  function ParseId(s: string): (r: Option<EntityId>)
    ensures r.Some? ==> ValidId(r.value)
  {
    var n := |s|;
    if n >= 5 && IsCourseCode(s[..n-4]) && s[n-4] == '-' && IsUpper(s[n-3]) && IsDigit(s[n-2]) && IsDigit(s[n-1])
    then Some(EntityId(s[..n-4], s[n-3], PairValue(s[n-2], s[n-1])))
    else None
  }

  lemma ParseUndoesIdText(id: EntityId)
    requires ValidId(id)
    ensures ParseId(IdText(id)) == Some(id)
  {
    var s := IdText(id);
    assert s[..|s|-4] == id.courseCode;
    PairOfTwoDigits(id.sequence);
  }

  /** Each entity id has one spelling only. */
  lemma IdTextUndoesParse(s: string)
    requires ParseId(s).Some?
    ensures IdText(ParseId(s).value) == s
  {
    var n := |s|;
    assert s == s[..n-4] + [s[n-4], s[n-3]] + [s[n-2], s[n-1]];
  }

  predicate IsEntityId(s: string) { ParseId(s).Some? }

  /** The value of a decimal digit. */
  function ValueOf(c: char): int { c as int - '0' as int }

  /** `[A-Z][A-Z0-9]*-[A-Z][0-9]{2}`, position by position, and what is read off it. */
  lemma ParseIdExactly(s: string, id: EntityId)
    ensures ParseId(s) == Some(id) <==>
      && |s| >= 5
      && var n := |s| - 4;
      && 'A' <= s[0] <= 'Z' && (forall i :: 0 < i < n ==> 'A' <= s[i] <= 'Z' || '0' <= s[i] <= '9')
      && s[n] == '-' && 'A' <= s[n + 1] <= 'Z' && '0' <= s[n + 2] <= '9' && '0' <= s[n + 3] <= '9'
      && id.courseCode == s[..n] && id.entityType == s[n + 1] && id.sequence == 10 * ValueOf(s[n + 2]) + ValueOf(s[n + 3])
  {
    if |s| >= 5 { assert forall i :: 0 <= i < |s| - 4 ==> s[..|s| - 4][i] == s[i]; }
  }

  lemma EntityIdHasNoColon(s: string)
    requires IsEntityId(s)
    ensures s != [] && ':' !in s
  {
    var n := |s|;
    assert forall i :: 0 <= i < n ==> if i < n - 4 then s[i] == s[..n-4][i] else i == n-4 || i == n-3 || i == n-2 || i == n-1;
  }

  // ---------------------------------------------------------------------------------------
  // Locators

  datatype Subtype = Plain | Source | User

  /** An inclusive range of pages or of seconds. */
  datatype Locator =
    | Page(entity: string, first: int, last: int, subtype: Subtype)
    | Time(entity: string, first: int, last: int, subtype: Subtype)

  const MAX_SECONDS := 99 * 3600 + 59 * 60 + 59

  /** What the constructors accept. */
  predicate Valid(l: Locator) {
    && IsEntityId(l.entity)
    && l.first <= l.last
    && (l.Page? ==> 1 <= l.first)
    && (l.Time? ==> 0 <= l.first && l.last <= MAX_SECONDS)
  }

  function FormatTimestamp(seconds: nat): (s: string)
    requires seconds <= MAX_SECONDS
    ensures |s| == 8
  {
    TwoDigits(seconds / 3600) + ":" + TwoDigits(seconds % 3600 / 60) + ":" + TwoDigits(seconds % 3600 % 60)
  }

  predicate IsTimestamp(s: string) {
    && |s| == 8 && s[2] == ':' && s[5] == ':'
    && IsDigit(s[0]) && IsDigit(s[1]) && IsDigit(s[3]) && IsDigit(s[4]) && IsDigit(s[6]) && IsDigit(s[7])
  }

  function ParseTimestamp(s: string): (r: Option<nat>)
    ensures r.Some? ==> r.value <= MAX_SECONDS
  {
    if !IsTimestamp(s) then None
    else
      var minute, second := PairValue(s[3], s[4]), PairValue(s[6], s[7]);
      if minute > 59 || second > 59 then None
      else Some(PairValue(s[0], s[1]) * 3600 + minute * 60 + second)
  }

  /** Two digits each of hours, minutes and seconds, in this order, the last two below sixty. */
  lemma TimestampExactly(s: string, seconds: int)
    ensures (ParseTimestamp(s).Some? && ParseTimestamp(s).value == seconds) <==>
      && |s| == 8 && s[2] == ':' && s[5] == ':' && (forall i :: i in {0, 1, 3, 4, 6, 7} ==> '0' <= s[i] <= '9')
      && var h, m, n := 10 * ValueOf(s[0]) + ValueOf(s[1]), 10 * ValueOf(s[3]) + ValueOf(s[4]), 10 * ValueOf(s[6]) + ValueOf(s[7]);
      m < 60 && n < 60 && seconds == 3600 * h + 60 * m + n
  {
  }

  /** Seconds to HH:MM:SS and back is exact up to 99:59:59. */
  lemma ParseUndoesFormat(seconds: nat)
    requires seconds <= MAX_SECONDS
    ensures ParseTimestamp(FormatTimestamp(seconds)) == Some(seconds)
  {
    var h, m, s := seconds / 3600, seconds % 3600 / 60, seconds % 3600 % 60;
    PairOfTwoDigits(h);
    PairOfTwoDigits(m);
    PairOfTwoDigits(s);
    assert seconds == h * 3600 + m * 60 + s;
  }

  lemma FormatUndoesParse(s: string)
    requires ParseTimestamp(s).Some?
    ensures FormatTimestamp(ParseTimestamp(s).value) == s
  {
    var h, m, n := PairValue(s[0], s[1]), PairValue(s[3], s[4]), PairValue(s[6], s[7]);
    var v := ParseTimestamp(s).value;
    assert v == h * 3600 + (m * 60 + n) && m * 60 + n < 3600;
    assert v / 3600 == h && v % 3600 == m * 60 + n;
    assert (m * 60 + n) / 60 == m && (m * 60 + n) % 60 == n;
    assert s == [s[0], s[1]] + ":" + [s[3], s[4]] + ":" + [s[6], s[7]];
  }

  function SubtypeText(t: Subtype): string {
    match t case Plain => "" case Source => ":source" case User => ":user"
  }

  function TargetText(l: Locator): string
    requires Valid(l)
  {
    match l
    case Page(_, a, b, _) => "p" + Digits(a) + (if a != b then "-p" + Digits(b) else "")
    case Time(_, a, b, _) => "t" + FormatTimestamp(a) + (if a != b then "-" + FormatTimestamp(b) else "")
  }

  function Serialize(l: Locator): string
    requires Valid(l)
  {
    l.entity + ":" + TargetText(l) + SubtypeText(l.subtype)
  }

  function IndexOf(s: string, c: char): (i: nat)
    ensures i <= |s| && (i < |s| ==> s[i] == c) && forall j :: 0 <= j < i ==> s[j] != c
  {
    if s == [] || s[0] == c then 0 else 1 + IndexOf(s[1..], c)
  }

  predicate EndsWith(s: string, t: string) { |t| <= |s| && s[|s|-|t|..] == t }

  function SplitSubtype(rest: string): (string, Subtype) {
    if EndsWith(rest, ":source") then (rest[..|rest|-7], Source)
    else if EndsWith(rest, ":user") then (rest[..|rest|-5], User)
    else (rest, Plain)
  }

  /** `[1-9][0-9]*` */
  predicate IsPageNumber(s: string) { s != [] && AllDigits(s) && s[0] != '0' }

  function ParsePages(body: string): (r: Option<(nat, nat)>)
    ensures r.Some? ==> 1 <= r.value.0 <= r.value.1
  {
    var k := DigitRun(body);
    if !IsPageNumber(body[..k]) then None
    else
      NumberIsPositive(body[..k]);
      var first := Number(body[..k]);
      if k == |body| then Some((first, first))
      else if body[k] != '-' then None
      else
        var tail := body[k+1..];
        var second := if tail != [] && tail[0] == 'p' then tail[1..] else tail;
        if IsPageNumber(second) && first <= Number(second) then Some((first, Number(second))) else None
  }

  function ParseTimes(body: string): (r: Option<(nat, nat)>)
    ensures r.Some? ==> r.value.0 <= r.value.1 <= MAX_SECONDS
  {
    if |body| == 8 then
      (match ParseTimestamp(body) case Some(a) => Some((a, a)) case None => None)
    else if |body| == 17 && body[8] == '-' then
      match (ParseTimestamp(body[..8]), ParseTimestamp(body[9..]))
      case (Some(a), Some(b)) => if a <= b then Some((a, b)) else None
      case _ => None
    else None
  }

  function ParseTarget(entity: string, target: string, subtype: Subtype): Option<Locator> {
    if target == [] then None
    else if target[0] == 'p' then
      match ParsePages(target[1..]) case Some((a, b)) => Some(Page(entity, a, b, subtype)) case None => None
    else if target[0] == 't' then
      match ParseTimes(target[1..]) case Some((a, b)) => Some(Time(entity, a, b, subtype)) case None => None
    else None
  }

  /** `parse_locator`; None is the LocatorParseError. */
  function Parse(text: string): Option<Locator> {
    var i := IndexOf(text, ':');
    if i == |text| || !IsEntityId(text[..i]) then None
    else
      var (target, subtype) := SplitSubtype(text[i+1..]);
      ParseTarget(text[..i], target, subtype)
  }

  // ---------------------------------------------------------------------------------------
  // The accepted spellings of a locator

  /** Every target text that denotes the range: the second number may drop its `p`, and a one-element range may be written twice. */
  ghost predicate IsTargetOf(l: Locator, target: string)
    requires Valid(l)
  {
    match l
    case Page(_, a, b, _) =>
      || (a == b && target == "p" + Digits(a))
      || target == "p" + Digits(a) + "-p" + Digits(b)
      || target == "p" + Digits(a) + "-" + Digits(b)
    case Time(_, a, b, _) =>
      || (a == b && target == "t" + FormatTimestamp(a))
      || target == "t" + FormatTimestamp(a) + "-" + FormatTimestamp(b)
  }

  ghost predicate IsSpelling(l: Locator, text: string)
    requires Valid(l)
  {
    exists target :: IsTargetOf(l, target) && text == l.entity + ":" + target + SubtypeText(l.subtype)
  }

  lemma PageNumberText(n: nat)
    requires n >= 1
    ensures IsPageNumber(Digits(n)) && Number(Digits(n)) == n
  {
    hide Digits, Number;
    NumberOfDigits(n);
  }

  lemma ParsePagesOfOne(a: nat)
    requires a >= 1
    ensures ParsePages(Digits(a)) == Some((a, a))
  {
    var d := Digits(a);
    PageNumberText(a);
    DigitRunOfDigits(d, []);
    assert d + [] == d && d[..|d|] == d;
  }

  lemma ParsePagesOfTwo(a: nat, b: nat, p: string)
    requires 1 <= a <= b && (p == "" || p == "p")
    ensures ParsePages(Digits(a) + "-" + p + Digits(b)) == Some((a, b))
  {
    hide Digits, Number, DigitRun;
    var d, e := Digits(a), Digits(b);
    var tail := "-" + (p + e);
    PageNumberText(a);
    PageNumberText(b);
    DigitRunOfDigits(d, tail);
    var body := d + tail;
    assert body == d + "-" + p + e;
    assert body[..|d|] == d && body[|d|] == '-' && body[|d|+1..] == p + e;
    assert p == "p" ==> (p + e)[1..] == e;
    assert p == "" ==> p + e == e && e[0] != 'p';
  }

  lemma ParseTimesOfTwo(a: nat, b: nat)
    requires a <= b <= MAX_SECONDS
    ensures ParseTimes(FormatTimestamp(a) + "-" + FormatTimestamp(b)) == Some((a, b))
  {
    var s, t := FormatTimestamp(a), FormatTimestamp(b);
    ParseUndoesFormat(a);
    ParseUndoesFormat(b);
    var body := s + "-" + t;
    assert body[..8] == s && body[8] == '-' && body[9..] == t;
  }

  lemma ParseTargetOfSpelling(l: Locator, target: string)
    requires Valid(l) && IsTargetOf(l, target)
    ensures ParseTarget(l.entity, target, l.subtype) == Some(l)
  {
    hide ParsePages, ParseTimes, Digits, FormatTimestamp;
    match l
    case Page(_, a, b, _) =>
      var d, e := Digits(a), Digits(b);
      ParsePagesOfOne(a);
      ParsePagesOfTwo(a, b, "p");
      ParsePagesOfTwo(a, b, "");
      assert ("p" + d)[1..] == d;
      assert ("p" + d + "-p" + e)[1..] == d + "-" + "p" + e;
      assert ("p" + d + "-" + e)[1..] == d + "-" + "" + e;
    case Time(_, a, b, _) =>
      ParseTimesOfTwo(a, b);
      ParseTimesOfOne(a);
      assert ("t" + FormatTimestamp(a))[1..] == FormatTimestamp(a);
      assert ("t" + FormatTimestamp(a) + "-" + FormatTimestamp(b))[1..] == FormatTimestamp(a) + "-" + FormatTimestamp(b);
  }

  lemma ParseTimesOfOne(a: nat)
    requires a <= MAX_SECONDS
    ensures ParseTimes(FormatTimestamp(a)) == Some((a, a))
  {
    ParseUndoesFormat(a);
  }

  /** A target ends in a digit, so the suffix is never mistaken for part of it. */
  lemma TargetEnd(l: Locator, target: string)
    requires Valid(l) && IsTargetOf(l, target)
    ensures target != [] && IsDigit(target[|target|-1])
  {
    match l
    case Page(_, a, b, _) =>
      assert IsDigit(Digits(a)[|Digits(a)|-1]) && IsDigit(Digits(b)[|Digits(b)|-1]);
    case Time(_, a, b, _) =>
      assert IsDigit(FormatTimestamp(a)[7]) && IsDigit(FormatTimestamp(b)[7]);
  }

  lemma LastOfEnding(s: string, t: string)
    requires t != []
    ensures EndsWith(s, t) ==> s != [] && s[|s|-1] == t[|t|-1]
  {
    if EndsWith(s, t) { assert s[|s|-|t|..][|t|-1] == s[|s|-1]; }
  }

  lemma SplitUndoesSuffix(target: string, t: Subtype)
    requires target != [] && IsDigit(target[|target|-1])
    ensures SplitSubtype(target + SubtypeText(t)) == (target, t)
  {
    var rest := target + SubtypeText(t);
    LastOfEnding(rest, ":source");
    LastOfEnding(rest, ":user");
    match t
    case Plain => assert rest == target;
    case Source => assert rest[|rest|-7..] == ":source" && rest[..|rest|-7] == target;
    case User => assert rest[|rest|-5..] == ":user" && rest[..|rest|-5] == target;
  }

  lemma SplitIsSuffix(rest: string)
    ensures var (target, t) := SplitSubtype(rest); rest == target + SubtypeText(t)
  {
  }

  lemma {:induction false} IndexOfFirst(s: string, c: char, t: string)
    requires c !in s
    ensures IndexOf(s + [c] + t, c) == |s|
  {
    if s == [] {
      assert (s + [c] + t)[0] == c;
    } else {
      assert s[0] in s && s == [s[0]] + s[1..];
      assert (s + [c] + t)[1..] == s[1..] + [c] + t;
      IndexOfFirst(s[1..], c, t);
    }
  }

  /** The parser accepts every spelling of a locator, and as that locator. */
  lemma ParseOfSpelling(l: Locator, text: string)
    requires Valid(l) && IsSpelling(l, text)
    ensures Parse(text) == Some(l)
  {
    hide ParseTarget, SplitSubtype, IsEntityId, IsTargetOf, SubtypeText, IndexOf;
    var target :| IsTargetOf(l, target) && text == l.entity + ":" + target + SubtypeText(l.subtype);
    var rest := target + SubtypeText(l.subtype);
    EntityIdHasNoColon(l.entity);
    IndexOfFirst(l.entity, ':', rest);
    assert text == l.entity + [':'] + rest;
    assert text[..|l.entity|] == l.entity && text[|l.entity|+1..] == rest;
    TargetEnd(l, target);
    SplitUndoesSuffix(target, l.subtype);
    ParseTargetOfSpelling(l, target);
  }

  lemma SpellingOfPages(body: string)
    requires ParsePages(body).Some?
    ensures var (a, b) := ParsePages(body).value;
      || (a == b && body == Digits(a)) || body == Digits(a) + "-p" + Digits(b) || body == Digits(a) + "-" + Digits(b)
  {
    hide Digits, Number, DigitRun;
    var k := DigitRun(body);
    DigitsOfNumber(body[..k]);
    if k == |body| {
      assert body[..k] == body;
    } else {
      var tail := body[k+1..];
      var second := if tail != [] && tail[0] == 'p' then tail[1..] else tail;
      DigitsOfNumber(second);
      PageParts(body, k);
    }
  }

  lemma PageParts(body: string, k: nat)
    requires k < |body| && body[k] == '-'
    ensures var tail := body[k+1..];
      if tail != [] && tail[0] == 'p' then body == body[..k] + "-p" + tail[1..] else body == body[..k] + "-" + tail
  {
    var tail := body[k+1..];
    assert body == body[..k] + ['-'] + tail;
    if tail != [] && tail[0] == 'p' { assert tail == ['p'] + tail[1..]; }
  }

  lemma SpellingOfTimes(body: string)
    requires ParseTimes(body).Some?
    ensures var (a, b) := ParseTimes(body).value;
      || (a == b && body == FormatTimestamp(a)) || body == FormatTimestamp(a) + "-" + FormatTimestamp(b)
  {
    if |body| == 8 {
      FormatUndoesParse(body);
    } else {
      FormatUndoesParse(body[..8]);
      FormatUndoesParse(body[9..]);
      assert body == body[..8] + "-" + body[9..];
    }
  }

  lemma SpellingOfTarget(entity: string, target: string, subtype: Subtype)
    requires IsEntityId(entity) && ParseTarget(entity, target, subtype).Some?
    ensures var l := ParseTarget(entity, target, subtype).value;
      Valid(l) && l.entity == entity && l.subtype == subtype && IsTargetOf(l, target)
  {
    hide ParsePages, ParseTimes, Digits, FormatTimestamp, IsEntityId;
    if target[0] == 'p' {
      SpellingOfPageTarget(entity, target, subtype);
    } else {
      SpellingOfTimeTarget(entity, target, subtype);
    }
  }

  lemma SpellingOfPageTarget(entity: string, target: string, subtype: Subtype)
    requires IsEntityId(entity) && ParseTarget(entity, target, subtype).Some? && target[0] == 'p'
    ensures var l := ParseTarget(entity, target, subtype).value;
      Valid(l) && l.entity == entity && l.subtype == subtype && IsTargetOf(l, target)
  {
    hide ParsePages, ParseTimes, Digits, FormatTimestamp, IsEntityId;
    var body := target[1..];
    assert target == "p" + body;
    var l := ParseTarget(entity, target, subtype).value;
    SpellingOfPages(body);
    var d, e := Digits(l.first), Digits(l.last);
    assert "p" + (d + "-p" + e) == "p" + d + "-p" + e && "p" + (d + "-" + e) == "p" + d + "-" + e;
  }

  lemma SpellingOfTimeTarget(entity: string, target: string, subtype: Subtype)
    requires IsEntityId(entity) && ParseTarget(entity, target, subtype).Some? && target[0] != 'p'
    ensures var l := ParseTarget(entity, target, subtype).value;
      Valid(l) && l.entity == entity && l.subtype == subtype && IsTargetOf(l, target)
  {
    hide ParsePages, ParseTimes, Digits, FormatTimestamp, IsEntityId;
    var body := target[1..];
    assert target == "t" + body;
    var l := ParseTarget(entity, target, subtype).value;
    SpellingOfTimes(body);
    var d, e := FormatTimestamp(l.first), FormatTimestamp(l.last);
    assert "t" + (d + "-" + e) == "t" + d + "-" + e;
  }

  /** The parser accepts nothing else, and only builds valid locators. */
  lemma SpellingOfParse(text: string)
    requires Parse(text).Some?
    ensures Valid(Parse(text).value) && IsSpelling(Parse(text).value, text)
  {
    hide ParseTarget, IsEntityId, SplitSubtype, IsTargetOf, SubtypeText, IndexOf;
    var i := IndexOf(text, ':');
    var rest := text[i+1..];
    var (target, subtype) := SplitSubtype(rest);
    SplitIsSuffix(rest);
    SpellingOfTarget(text[..i], target, subtype);
    var l := Parse(text).value;
    assert text == text[..i] + ":" + rest;
    assert text[..i] + ":" + (target + SubtypeText(subtype)) == text[..i] + ":" + target + SubtypeText(subtype);
  }

  lemma SerializeIsSpelling(l: Locator)
    requires Valid(l)
    ensures IsSpelling(l, Serialize(l))
  {
    hide Digits, FormatTimestamp;
    var target := TargetText(l);
    if l.Page? && l.first != l.last {
      assert target == "p" + Digits(l.first) + "-p" + Digits(l.last);
    } else if l.Time? && l.first != l.last {
      assert target == "t" + FormatTimestamp(l.first) + "-" + FormatTimestamp(l.last);
    } else if l.Page? {
      assert target == "p" + Digits(l.first);
    } else {
      assert target == "t" + FormatTimestamp(l.first);
    }
    assert IsTargetOf(l, target);
  }

  /** A text parses to a locator exactly when it is one of that locator's spellings. */
  lemma ParseExactly(text: string, l: Locator)
    requires Valid(l)
    ensures Parse(text) == Some(l) <==> IsSpelling(l, text)
  {
    if Parse(text) == Some(l) { SpellingOfParse(text); }
    if IsSpelling(l, text) { ParseOfSpelling(l, text); }
  }

  lemma ParseUndoesSerialize(l: Locator)
    requires Valid(l)
    ensures Parse(Serialize(l)) == Some(l)
  {
    SerializeIsSpelling(l);
    ParseOfSpelling(l, Serialize(l));
  }

  /** Serializing the parse of any accepted text is stable. */
  lemma SerializeIsFixedPoint(text: string)
    requires Parse(text).Some?
    ensures Valid(Parse(text).value)
    ensures var canonical := Serialize(Parse(text).value);
      Parse(canonical) == Parse(text) && Serialize(Parse(canonical).value) == canonical
  {
    SpellingOfParse(text);
    ParseUndoesSerialize(Parse(text).value);
  }

  lemma SerializeInjective(k: Locator, l: Locator)
    requires Valid(k) && Valid(l) && Serialize(k) == Serialize(l)
    ensures k == l
  {
    ParseUndoesSerialize(k);
    ParseUndoesSerialize(l);
  }

  // ---------------------------------------------------------------------------------------
  // Containment

  function IsContained(requested: Locator, allowed: Locator): bool {
    && requested.Page? == allowed.Page?
    && requested.entity == allowed.entity
    && requested.subtype == allowed.subtype
    && requested.first >= allowed.first
    && requested.last <= allowed.last
  }

  /** One page or one second of an entity. */
  datatype Point = Point(isPage: bool, entity: string, subtype: Subtype, n: int)

  ghost predicate Denotes(l: Locator, p: Point) {
    p.isPage == l.Page? && p.entity == l.entity && p.subtype == l.subtype && l.first <= p.n <= l.last
  }

  /** Containment is inclusion of the denoted pages or seconds. */
  lemma ContainedIsInclusion(requested: Locator, allowed: Locator)
    requires Valid(requested) && Valid(allowed)
    ensures IsContained(requested, allowed) <==> forall p :: Denotes(requested, p) ==> Denotes(allowed, p)
  {
    if forall p :: Denotes(requested, p) ==> Denotes(allowed, p) {
      var lo := Point(requested.Page?, requested.entity, requested.subtype, requested.first);
      var hi := Point(requested.Page?, requested.entity, requested.subtype, requested.last);
      assert Denotes(requested, lo) && Denotes(requested, hi);
    }
  }

  lemma ContainedIsPartialOrder(a: Locator, b: Locator, c: Locator)
    requires Valid(a) && Valid(b) && Valid(c)
    ensures IsContained(a, a)
    ensures IsContained(a, b) && IsContained(b, a) ==> a == b
    ensures IsContained(a, b) && IsContained(b, c) ==> IsContained(a, c)
  {
  }
}
