/** The four precompiled patterns of the scraper, written out as string
    functions. `re.match` anchors a pattern at the start of the string;
    `re.search` takes the leftmost start position where it matches. */
module Patterns {
  import opened Wrappers
  import opened Text

  const MoreLinkPrefix: string := "/x?fnid="
  const UserLinkPrefix: string := "user?id="
  const ItemLinkPrefix: string := "item?id="

  /** `.*$` matched at the start of `t`: `.` stops at a newline and `$`
      holds at the end or just before a final newline, so a newline may
      only occur as the last character. */
  predicate DotStarToEnd(t: string) {
    forall k :: 0 <= k < |t| - 1 ==> t[k] != '\n'
  }

  /** What `(.*)$` captures of such a `t`: all of it but a final newline. */
  function DotStarGroup(t: string): (g: string)
    requires DotStarToEnd(t)
    ensures '\n' !in g
    ensures t == g || t == g + "\n"
  {
    if t != [] && t[|t| - 1] == '\n' then
      assert t == t[..|t| - 1] + "\n";
      t[..|t| - 1]
    else t
  }

  /** `more_link_re.match(href)`, pattern `/x\?fnid=.*$`. */
  predicate MatchMoreLink(href: string) {
    StartsWith(href, MoreLinkPrefix) && DotStarToEnd(href[|MoreLinkPrefix|..])
  }

  /** `more_link_re` matches exactly the hrefs made of `/x?fnid=`, a
      rest without newlines, and at most one final newline. */
  lemma MoreLinkShape(href: string)
    ensures MatchMoreLink(href) <==>
              exists rest :: '\n' !in rest && (href == MoreLinkPrefix + rest || href == MoreLinkPrefix + rest + "\n")
  {
    var n := |MoreLinkPrefix|;
    if MatchMoreLink(href) {
      var rest := DotStarGroup(href[n..]);
      assert href == MoreLinkPrefix + href[n..];
    }
    if exists rest :: '\n' !in rest && (href == MoreLinkPrefix + rest || href == MoreLinkPrefix + rest + "\n") {
      var rest :| '\n' !in rest && (href == MoreLinkPrefix + rest || href == MoreLinkPrefix + rest + "\n");
      assert href[..n] == MoreLinkPrefix;
      var t := href[n..];
      assert t == rest || t == rest + "\n";
      forall k | 0 <= k < |t| - 1 ensures t[k] != '\n' {
        assert t[k] == rest[k];
      }
    }
  }

  datatype MetaKind = UserLink | ItemLink

  datatype MetaMatch = MetaMatch(kind: MetaKind, value: string)

  function KindPrefix(kind: MetaKind): string {
    match kind
    case UserLink => UserLinkPrefix
    case ItemLink => ItemLinkPrefix
  }

  /** `meta_link_re.match(href)`, pattern `(user|item)\?id=(.*)$`: the
      first group as a kind, the second as the value. */
  function MatchMetaLink(href: string): (r: Option<MetaMatch>)
    ensures r.Some? <==> exists kind :: StartsWith(href, KindPrefix(kind)) && DotStarToEnd(href[8..])
    ensures r.Some? ==> '\n' !in r.value.value
    ensures r.Some? ==> href == KindPrefix(r.value.kind) + r.value.value || href == KindPrefix(r.value.kind) + r.value.value + "\n"
  {
    var kind := if StartsWith(href, UserLinkPrefix) then UserLink else ItemLink;
    if StartsWith(href, KindPrefix(kind)) && DotStarToEnd(href[8..]) then
      var g := DotStarGroup(href[8..]);
      assert href == href[..8] + href[8..];
      Some(MetaMatch(kind, g))
    else
      assert (!StartsWith(href, UserLinkPrefix) && !StartsWith(href, ItemLinkPrefix)) || !DotStarToEnd(href[8..]);
      None
  }

  /** `(\d+)\s+points?` matches at the start of `s` with digits in
      `s[..d]` and blanks in `s[d..w]` before the word `point` (a trailing
      `s` and whatever follows are not needed for a match). */
  ghost predicate PointsShape(s: string, d: nat, w: nat) {
    && 0 < d < w
    && AllIn(s, 0, d, Digits)
    && AllIn(s, d, w, Spaces)
    && LiteralAt(s, w, "point")
  }

  /** `points_re.match(s)` and `int(m.group(1))`. */
  function MatchPoints(s: string): (r: Option<nat>)
    ensures r.Some? <==> exists d: nat, w: nat :: PointsShape(s, d, w)
    ensures forall d: nat, w: nat :: PointsShape(s, d, w) ==> r == Some(DigitsValue(s, 0, d))
    ensures s != [] && IsSpace(s[0]) ==> r.None?
  {
    var d := RunEnd(s, 0, Digits);
    var w := RunEnd(s, d, Spaces);
    assert forall d': nat, w': nat :: PointsShape(s, d', w') ==> d' == d && w' == w by {
      forall d': nat, w': nat | PointsShape(s, d', w') ensures d' == d && w' == w {
        PointsShapeIsGreedy(s, d', w');
      }
    }
    if 0 < d < w && LiteralAt(s, w, "point") then
      assert PointsShape(s, d, w);
      Some(DigitsValue(s, 0, d))
    else
      None
  }

  /** The only shape of `points_re` is the one the greedy matcher finds. */
  lemma PointsShapeIsGreedy(s: string, d: nat, w: nat)
    requires PointsShape(s, d, w)
    ensures RunEnd(s, 0, Digits) == d
    ensures RunEnd(s, d, Spaces) == w
  {
    assert IsSpace(s[d]);
    RunEndUnique(s, 0, d, Digits);
    assert s[w] == 'p' by { assert s[w..w + 5][0] == s[w]; }
    RunEndUnique(s, d, w, Spaces);
  }

  datatype Unit = Minute | Hour | Day

  function UnitText(u: Unit): string {
    match u
    case Minute => "minute"
    case Hour => "hour"
    case Day => "day"
  }

  /** The alternative of `(minute|hour|day)` that matches at position `i`. */
  function UnitAt(s: string, i: nat): (r: Option<Unit>)
    ensures r.Some? ==> LiteralAt(s, i, UnitText(r.value))
    ensures forall u :: LiteralAt(s, i, UnitText(u)) ==> r == Some(u)
  {
    assert forall u :: LiteralAt(s, i, UnitText(u)) ==> s[i] == UnitText(u)[0] by {
      forall u | LiteralAt(s, i, UnitText(u)) ensures s[i] == UnitText(u)[0] {
        assert s[i..i + |UnitText(u)|][0] == s[i];
      }
    }
    if LiteralAt(s, i, "minute") then Some(Minute)
    else if LiteralAt(s, i, "hour") then Some(Hour)
    else if LiteralAt(s, i, "day") then Some(Day)
    else None
  }

  /** The two groups of a match of `age_re`: the count and the unit text. */
  datatype AgeText = AgeText(count: nat, unit: string)

  /** Where the parts of one match of `age_re` lie: digits end at `d`,
      blanks at `u`, the unit starts at `u`, `plural` says an `s`
      follows it, the second blanks end at `g`, where `ago` starts. */
  datatype AgeSpan = AgeSpan(d: nat, u: nat, unit: Unit, plural: bool, g: nat)

  /** `(\d+)\s+(minute|hour|day)s?\s+ago` matches at position `i` of `s`
      with the parts where `m` puts them. */
  ghost predicate AgeShape(s: string, i: nat, m: AgeSpan) {
    var q := m.u + |UnitText(m.unit)| + (if m.plural then 1 else 0);
    && i < m.d < m.u && q < m.g
    && AllIn(s, i, m.d, Digits)
    && AllIn(s, m.d, m.u, Spaces)
    && LiteralAt(s, m.u, UnitText(m.unit))
    && AllIn(s, q, m.g, Spaces)
    && (m.plural ==> s[q - 1] == 's')
    && LiteralAt(s, m.g, "ago")
  }

  /** The left-to-right, greedy attempt of `age_re` at position `i`. */
  function GreedyAge(s: string, i: nat): Option<AgeSpan>
    requires i <= |s|
  {
    var d := RunEnd(s, i, Digits);
    var u := RunEnd(s, d, Spaces);
    var unit := UnitAt(s, u);
    if i < d < u && unit.Some? then GreedyAgeTail(s, d, u, unit.value) else None
  }

  /** The greedy attempt after the unit that starts at `u`: the optional
      `s`, the blanks and `ago`. */
  function GreedyAgeTail(s: string, d: nat, u: nat, unit: Unit): Option<AgeSpan>
    requires u <= |s|
  {
    var e := u + |UnitText(unit)|;
    var plural := e < |s| && s[e] == 's';
    var q := if plural then e + 1 else e;
    if q > |s| then None
    else
      var g := RunEnd(s, q, Spaces);
      if q < g && LiteralAt(s, g, "ago") then Some(AgeSpan(d, u, unit, plural, g)) else None
  }

  /** What the greedy matcher finds is a shape of `age_re`. */
  lemma GreedyAgeIsShape(s: string, i: nat)
    requires i <= |s| && GreedyAge(s, i).Some?
    ensures AgeShape(s, i, GreedyAge(s, i).value)
  {
    var d := RunEnd(s, i, Digits);
    var u := RunEnd(s, d, Spaces);
    var m := GreedyAge(s, i).value;
    assert m == GreedyAgeTail(s, d, u, UnitAt(s, u).value).value;
  }

  /** The first stage of a shape is what the greedy matcher finds: the
      digits, the blanks after them and the unit. */
  lemma AgeShapeHead(s: string, i: nat, m: AgeSpan)
    requires i <= |s|
    requires AgeShape(s, i, m)
    ensures RunEnd(s, i, Digits) == m.d
    ensures RunEnd(s, m.d, Spaces) == m.u
    ensures UnitAt(s, m.u) == Some(m.unit)
  {
    assert IsSpace(s[m.d]);
    RunEndUnique(s, i, m.d, Digits);
    LiteralAtHead(s, m.u, UnitText(m.unit));
    RunEndUnique(s, m.d, m.u, Spaces);
  }

  /** Where the unit of a shape ends. */
  function UnitEnd(m: AgeSpan): nat {
    m.u + |UnitText(m.unit)|
  }

  /** Where the blanks before `ago` start in a shape. */
  function GapStart(m: AgeSpan): nat {
    UnitEnd(m) + if m.plural then 1 else 0
  }

  /** A shape has the optional `s` exactly when the greedy matcher takes it. */
  lemma AgeShapePlural(s: string, i: nat, m: AgeSpan)
    requires AgeShape(s, i, m)
    ensures m.plural == (UnitEnd(m) < |s| && s[UnitEnd(m)] == 's')
  {
    var q := GapStart(m);
    assert q < m.g <= |s|;
    assert IsSpace(s[q]);
  }

  /** A literal that occurs at `i` starts with the character at `i`. */
  lemma LiteralAtHead(s: string, i: nat, lit: string)
    requires LiteralAt(s, i, lit) && lit != []
    ensures s[i] == lit[0]
  {
    assert s[i..i + |lit|][0] == s[i];
  }

  /** A run of blanks followed by `ago` ends where `ago` starts. */
  lemma SpacesBeforeAgo(s: string, q: nat, g: nat)
    requires AllIn(s, q, g, Spaces) && LiteralAt(s, g, "ago")
    ensures RunEnd(s, q, Spaces) == g
  {
    LiteralAtHead(s, g, "ago");
    RunEndUnique(s, q, g, Spaces);
  }

  /** The tail of a shape is what the greedy matcher finds after its unit. */
  lemma AgeShapeTail(s: string, i: nat, m: AgeSpan)
    requires AgeShape(s, i, m)
    ensures GreedyAgeTail(s, m.d, m.u, m.unit) == Some(m)
  {
    AgeShapePlural(s, i, m);
    SpacesBeforeAgo(s, GapStart(m), m.g);
  }

  /** Any shape of `age_re` at `i` is the one the greedy matcher finds:
      `\d+` and `\s+` never give back characters, and the unit, the
      optional `s` and `ago` start with different letters than a blank. */
  lemma AgeShapeIsGreedy(s: string, i: nat, m: AgeSpan)
    requires i <= |s|
    requires AgeShape(s, i, m)
    ensures GreedyAge(s, i) == Some(m)
  {
    AgeShapeHead(s, i, m);
    AgeShapeTail(s, i, m);
  }

  /** `age_re.match(s, i)`: the groups of the match anchored at position `i`. */
  function MatchAgeAt(s: string, i: nat): (r: Option<AgeText>)
    requires i <= |s|
    ensures r.Some? <==> exists m: AgeSpan :: AgeShape(s, i, m)
    ensures forall m: AgeSpan :: AgeShape(s, i, m) ==> r == Some(AgeText(DigitsValue(s, i, m.d), UnitText(m.unit)))
  {
    assert forall m: AgeSpan :: AgeShape(s, i, m) ==> GreedyAge(s, i) == Some(m) by {
      forall m: AgeSpan | AgeShape(s, i, m) ensures GreedyAge(s, i) == Some(m) {
        AgeShapeIsGreedy(s, i, m);
      }
    }
    match GreedyAge(s, i)
    case Some(m) =>
      GreedyAgeIsShape(s, i);
      Some(AgeText(DigitsValue(s, i, m.d), UnitText(m.unit)))
    case None => None
  }

  /** A match of `age_re` found by `re.search`, with its start position. */
  datatype AgeFound = AgeFound(start: nat, age: AgeText)

  /** `age_re.search(s)` restricted to start positions from `i` on: the
      leftmost position where the pattern matches. */
  function SearchAgeFrom(s: string, i: nat): (r: Option<AgeFound>)
    requires i <= |s|
    ensures r.Some? ==> i <= r.value.start <= |s| && MatchAgeAt(s, r.value.start) == Some(r.value.age)
    ensures r.Some? ==> forall j :: i <= j < r.value.start ==> MatchAgeAt(s, j).None?
    ensures r.None? ==> forall j :: i <= j <= |s| ==> MatchAgeAt(s, j).None?
    decreases |s| - i
  {
    var m := MatchAgeAt(s, i);
    if m.Some? then Some(AgeFound(i, m.value))
    else if i == |s| then None
    else SearchAgeFrom(s, i + 1)
  }

  /** `age_re.search(s)`. */
  function SearchAge(s: string): (r: Option<AgeFound>)
    ensures r.Some? ==> r.value.start <= |s| && MatchAgeAt(s, r.value.start) == Some(r.value.age)
    ensures r.Some? ==> forall j :: 0 <= j < r.value.start ==> MatchAgeAt(s, j).None?
    ensures r.None? ==> forall j :: 0 <= j <= |s| ==> MatchAgeAt(s, j).None?
  {
    SearchAgeFrom(s, 0)
  }

}
