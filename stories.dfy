/** The story extractor: `get_story_info` turns the first link of a title
    cell into either the pagination marker or a story dictionary, and
    `get_stories` collects the stories of a listing page in order together
    with the `more` link.

    The parsed HTML is given as a sequence of title cells (the `td.title`
    cells in document order); each holds the links it contains and the
    `subtext` cell found from its first link (the `td.subtext` cell of the
    row that follows the link's grandparent row), if any. */
module Stories {
  import opened Wrappers
  import opened Text
  import opened Patterns
  import opened Age

  /** A link: its text content and its `href` attribute (`None` when the
      attribute is absent). */
  datatype Anchor = Anchor(text: string, href: Option<string>)

  /** A `subtext` cell: the hrefs of its links and the text of its spans,
      both in document order, and its whole text content. */
  datatype Subtext = Subtext(hrefs: seq<Option<string>>, spans: seq<string>, text: string)

  /** A `td.title` cell. */
  datatype TitleCell = TitleCell(links: seq<Anchor>, subtext: Option<Subtext>)

  /** The keys of a story dictionary. */
  datatype Key = Title | Link | User | Id | Points | Posted

  /** A dictionary value: `None`, a string, an integer or a posting day. */
  datatype Value = Null | Str(s: string) | Number(n: nat) | Date(day: int)

  /** What `get_story_info` returns: its `type` key becomes the tag. A
      `Story` holds the dictionary without `type`, as `get_stories` keeps
      it after `del d['type']`. */
  datatype Info = More(link: string) | Story(fields: map<Key, Value>)

  /** The exceptions that escape the extractor. */
  datatype Error =
    | MissingHref            // TypeError: a pattern matched against a missing href
    | BadAge(cause: AgeError)

  /** What `get_stories` returns: the story dictionaries in page order
      and the `more` key, if set. */
  datatype Page = Page(items: seq<map<Key, Value>>, more: Option<string>)

  function HrefValue(href: Option<string>): Value {
    match href
    case None => Null
    case Some(h) => Str(h)
  }

  /** The title link is the "More" pagination marker. */
  predicate IsMarker(a: Anchor) {
    Strip(a.text) == "More" && a.href.Some? && MatchMoreLink(a.href.value)
  }

  /** The marker is a link whose text is `More` up to surrounding
      whitespace and whose href is `/x?fnid=` followed by a line. */
  lemma MarkerShape(a: Anchor)
    ensures IsMarker(a) <==>
              && Strip(a.text) == "More" && a.href.Some?
              && exists rest :: '\n' !in rest &&
                   (a.href.value == MoreLinkPrefix + rest || a.href.value == MoreLinkPrefix + rest + "\n")
  {
    if a.href.Some? {
      MoreLinkShape(a.href.value);
    }
  }

  /** The user named by a `subtext` link, if its href is `user?id=...`. */
  function UserOf(href: Option<string>): Option<Value> {
    if href.None? then None
    else
      match MatchMetaLink(href.value)
      case Some(MetaMatch(UserLink, v)) => Some(Str(v))
      case _ => None
  }

  /** The item id named by a `subtext` link, if its href is `item?id=...`. */
  function ItemOf(href: Option<string>): Option<Value> {
    if href.None? then None
    else
      match MatchMetaLink(href.value)
      case Some(MetaMatch(ItemLink, v)) => Some(Str(v))
      case _ => None
  }

  /** The points a span announces, if its text matches `points_re`. */
  function PointsOf(span: string): Option<Value> {
    match MatchPoints(span)
    case Some(n) => Some(Number(n))
    case None => None
  }

  /** The result for the last element of `xs` that `f` maps to a value:
      what a loop that overwrites a key on every hit leaves behind. */
  function LastSome<T, U>(xs: seq<T>, f: T -> Option<U>): Option<U>
    decreases |xs|
  {
    if xs == [] then None
    else if f(xs[|xs| - 1]).Some? then f(xs[|xs| - 1])
    else LastSome(xs[..|xs| - 1], f)
  }

  /** `LastSome` finds nothing exactly when no element is a hit. */
  lemma {:induction false} LastSomeNone<T, U>(xs: seq<T>, f: T -> Option<U>)
    ensures LastSome(xs, f).None? <==> forall i :: 0 <= i < |xs| ==> f(xs[i]).None?
    decreases |xs|
  {
    if xs != [] {
      var init := xs[..|xs| - 1];
      LastSomeNone(init, f);
      assert forall i :: 0 <= i < |init| ==> init[i] == xs[i];
    }
  }

  /** What `LastSome` finds is the value of a hit after which no hit
      follows. */
  lemma {:induction false} LastSomeHit<T, U>(xs: seq<T>, f: T -> Option<U>)
    requires LastSome(xs, f).Some?
    ensures exists i :: 0 <= i < |xs| && f(xs[i]) == LastSome(xs, f) && forall j :: i < j < |xs| ==> f(xs[j]).None?
    decreases |xs|
  {
    var n := |xs|;
    if f(xs[n - 1]).None? {
      var init := xs[..n - 1];
      LastSomeHit(init, f);
      var i :| 0 <= i < |init| && f(init[i]) == LastSome(init, f) && forall j :: i < j < |init| ==> f(init[j]).None?;
      assert init[i] == xs[i];
      assert forall j :: i < j < n - 1 ==> init[j] == xs[j];
    }
  }

  /** The last hit is what `LastSome` finds. */
  lemma {:induction false} LastSomeOfLastHit<T, U>(xs: seq<T>, f: T -> Option<U>, i: nat)
    requires i < |xs| && f(xs[i]).Some?
    requires forall j :: i < j < |xs| ==> f(xs[j]).None?
    ensures LastSome(xs, f) == f(xs[i])
    decreases |xs|
  {
    var n := |xs|;
    if i < n - 1 {
      var init := xs[..n - 1];
      assert init[i] == xs[i];
      assert forall j :: i < j < n - 1 ==> init[j] == xs[j];
      LastSomeOfLastHit(init, f, i);
    }
  }

  /** `LastSome` is the value of the last hit, and nothing when no element
      is a hit. */
  lemma LastSomeIsLastHit<T, U>(xs: seq<T>, f: T -> Option<U>)
    ensures LastSome(xs, f).None? <==> forall i :: 0 <= i < |xs| ==> f(xs[i]).None?
    ensures LastSome(xs, f).Some? ==>
              exists i :: 0 <= i < |xs| && f(xs[i]) == LastSome(xs, f) && forall j :: i < j < |xs| ==> f(xs[j]).None?
    ensures forall i :: 0 <= i < |xs| && f(xs[i]).Some? && (forall j :: i < j < |xs| ==> f(xs[j]).None?) ==>
              LastSome(xs, f) == f(xs[i])
  {
    LastSomeNone(xs, f);
    if LastSome(xs, f).Some? {
      LastSomeHit(xs, f);
    }
    forall i | 0 <= i < |xs| && f(xs[i]).Some? && (forall j :: i < j < |xs| ==> f(xs[j]).None?)
      ensures LastSome(xs, f) == f(xs[i])
    {
      LastSomeOfLastHit(xs, f, i);
    }
  }

  /** The dictionary entry for `k`, present only when there is a value. */
  function Entry(k: Key, v: Option<Value>): (m: map<Key, Value>)
    ensures m.Keys <= {k}
  {
    match v
    case Some(x) => map[k := x]
    case None => map[]
  }

  /** The `posted` entry from the first age phrase of the `subtext` text. */
  /** The first age phrase of `text` names a day `parse_age` cannot make. */
  predicate AgeFails(text: string, now: nat) {
    SearchAge(text).Some? &&
    ParseAge(SearchAge(text).value.age.count, SearchAge(text).value.age.unit, now).Err?
  }

  function PostedEntry(text: string, now: nat): (r: Result<map<Key, Value>, Error>)
    ensures r.Ok? ==> r.value.Keys <= {Posted}
    ensures r.Err? <==> AgeFails(text, now)
    ensures AgeFails(text, now) ==>
              var age := SearchAge(text).value.age;
              r == Err(BadAge(ParseAge(age.count, age.unit, now).error))
  {
    match SearchAge(text)
    case None => Ok(map[])
    case Some(found) =>
      match ParseAge(found.age.count, found.age.unit, now)
      case Err(e) => Err(BadAge(e))
      case Ok(day) => Ok(map[Posted := Date(day)])
  }

  /** The dictionary a story starts with. */
  function BaseFields(a: Anchor): map<Key, Value> {
    map[Title := Str(Strip(a.text)), Link := HrefValue(a.href)]
  }

  /** The fields the links of a `subtext` cell set. */
  function LinkFields(hrefs: seq<Option<string>>): map<Key, Value> {
    Entry(User, LastSome(hrefs, UserOf)) + Entry(Id, LastSome(hrefs, ItemOf))
  }

  function MetaKey(kind: MetaKind): Key {
    match kind
    case UserLink => User
    case ItemLink => Id
  }

  /** One more `subtext` link overwrites the key it names, if any. */
  lemma LinkFieldsStep(base: map<Key, Value>, hrefs: seq<Option<string>>, j: nat)
    requires j < |hrefs| && hrefs[j].Some?
    ensures var m := MatchMetaLink(hrefs[j].value);
            base + LinkFields(hrefs[..j + 1]) ==
              if m.None? then base + LinkFields(hrefs[..j])
              else (base + LinkFields(hrefs[..j]))[MetaKey(m.value.kind) := Str(m.value.value)]
  {
    assert hrefs[..j + 1][..j] == hrefs[..j];
  }

  /** One more span overwrites `points` when it matches. */
  lemma PointsStep(base: map<Key, Value>, spans: seq<string>, j: nat)
    requires j < |spans|
    ensures var m := MatchPoints(spans[j]);
            base + Entry(Points, LastSome(spans[..j + 1], PointsOf)) ==
              if m.None? then base + Entry(Points, LastSome(spans[..j], PointsOf))
              else (base + Entry(Points, LastSome(spans[..j], PointsOf)))[Points := Number(m.value)]
  {
    assert spans[..j + 1][..j] == spans[..j];
  }

  /** `posted` is set exactly when the text holds an age phrase, to the
      day `parse_age` gives for it. */
  lemma PostedEntryMeaning(text: string, now: nat)
    requires PostedEntry(text, now).Ok?
    ensures var posted := PostedEntry(text, now).value;
            && (Posted in posted <==> SearchAge(text).Some?)
            && (Posted in posted ==>
                  var age := SearchAge(text).value.age;
                  posted[Posted].Date? && ParseAge(age.count, age.unit, now) == Ok(posted[Posted].day))
  {
  }

  /** Without an age phrase, `posted` adds nothing. */
  lemma PostedNone(m: map<Key, Value>, text: string, now: nat)
    requires SearchAge(text).None?
    ensures PostedEntry(text, now) == Ok(map[]) && m + map[] == m
  {
  }

  /** With an age phrase whose day is `day`, `posted` adds that day. */
  lemma PostedSome(text: string, now: nat, day: int)
    requires SearchAge(text).Some?
    requires ParseAge(SearchAge(text).value.age.count, SearchAge(text).value.age.unit, now) == Ok(day)
    ensures PostedEntry(text, now) == Ok(map[Posted := Date(day)])
  {
  }

  lemma UpdateIsUnion(m: map<Key, Value>, k: Key, v: Value)
    ensures m[k := v] == m + map[k := v]
  {
  }

  lemma UnionAssoc(a: map<Key, Value>, b: map<Key, Value>, c: map<Key, Value>, e: map<Key, Value>)
    ensures a + b + c + e == a + (b + c + e)
  {
  }

  /** The fields the `subtext` cell `st` adds to a story: links first,
      then spans, then the age phrase, each step able to raise. */
  function MetaFields(st: Subtext, now: nat): (r: Result<map<Key, Value>, Error>)
    ensures r.Ok? ==> r.value.Keys <= {User, Id, Points, Posted}
    ensures None in st.hrefs ==> r == Err(MissingHref)
    ensures r.Err? <==> None in st.hrefs || AgeFails(st.text, now)
    ensures None !in st.hrefs && AgeFails(st.text, now) ==>
              var age := SearchAge(st.text).value.age;
              r == Err(BadAge(ParseAge(age.count, age.unit, now).error))
  {
    if None in st.hrefs then Err(MissingHref)
    else
      match PostedEntry(st.text, now)
      case Err(e) => Err(e)
      case Ok(posted) => Ok(LinkFields(st.hrefs) + Entry(Points, LastSome(st.spans, PointsOf)) + posted)
  }

  /** What `get_story_info` makes of the title link `a` and its `subtext`
      cell, with the clock reading `now`. */
  function StoryInfoOf(a: Anchor, subtext: Option<Subtext>, now: nat): (r: Result<Info, Error>)
    ensures (r.Ok? && r.value.More?) <==> IsMarker(a)
    ensures IsMarker(a) ==> r == Ok(More(a.href.value))
    ensures r.Ok? && r.value.Story? ==>
              Title in r.value.fields && r.value.fields[Title] == Str(Strip(a.text)) &&
              Link in r.value.fields && r.value.fields[Link] == HrefValue(a.href)
    ensures subtext.None? && r.Ok? && r.value.Story? ==> r.value.fields.Keys == {Title, Link}
    ensures subtext.Some? && r.Ok? && r.value.Story? ==>
              MetaFields(subtext.value, now).Ok? && r.value.fields == BaseFields(a) + MetaFields(subtext.value, now).value
    ensures Strip(a.text) != "More" && subtext.None? ==> r.Ok?
    ensures Strip(a.text) == "More" && a.href.None? ==> r == Err(MissingHref)
    ensures subtext.Some? && None in subtext.value.hrefs && !IsMarker(a) ==> r == Err(MissingHref)
    ensures r.Err? <==>
              (Strip(a.text) == "More" && a.href.None?) ||
              (!IsMarker(a) && subtext.Some? && MetaFields(subtext.value, now).Err?)
    ensures !(Strip(a.text) == "More" && a.href.None?) && !IsMarker(a) &&
            subtext.Some? && MetaFields(subtext.value, now).Err? ==>
              r == Err(MetaFields(subtext.value, now).error)
  {
    var title := Strip(a.text);
    if title == "More" && a.href.None? then Err(MissingHref)
    else if title == "More" && MatchMoreLink(a.href.value) then Ok(More(a.href.value))
    else
      match subtext
      case None => Ok(Story(BaseFields(a)))
      case Some(st) =>
        match MetaFields(st, now)
        case Err(e) => Err(e)
        case Ok(meta) => Ok(Story(BaseFields(a) + meta))
  }

  /** A key the right operand of a union lacks is looked up in the left. */
  lemma KeyOfLeft(a: map<Key, Value>, b: map<Key, Value>, k: Key)
    requires k !in b
    ensures (k in a + b <==> k in a) && (k in a ==> (a + b)[k] == a[k])
  {
  }

  /** A key the left operand of a union lacks is looked up in the right. */
  lemma KeyOfRight(a: map<Key, Value>, b: map<Key, Value>, k: Key)
    requires k !in a
    ensures (k in a + b <==> k in b) && (k in b ==> (a + b)[k] == b[k])
  {
  }

  /** A key `Entry` sets holds the value, when there is one. */
  lemma KeyOfEntry(k: Key, v: Option<Value>)
    ensures (k in Entry(k, v) <==> v.Some?) && (k in Entry(k, v) ==> v == Some(Entry(k, v)[k]))
  {
  }

  /** Each key of the fields built from links, spans and a `posted`
      entry comes from its own source. */
  lemma KeysOfParts(m: map<Key, Value>, hrefs: seq<Option<string>>, spans: seq<string>, posted: map<Key, Value>)
    requires m == LinkFields(hrefs) + Entry(Points, LastSome(spans, PointsOf)) + posted
    requires posted.Keys <= {Posted}
    ensures (User in m <==> LastSome(hrefs, UserOf).Some?) && (User in m ==> LastSome(hrefs, UserOf) == Some(m[User]))
    ensures (Id in m <==> LastSome(hrefs, ItemOf).Some?) && (Id in m ==> LastSome(hrefs, ItemOf) == Some(m[Id]))
    ensures (Points in m <==> LastSome(spans, PointsOf).Some?) && (Points in m ==> LastSome(spans, PointsOf) == Some(m[Points]))
    ensures (Posted in m <==> Posted in posted) && (Posted in m ==> m[Posted] == posted[Posted])
  {
    var user := Entry(User, LastSome(hrefs, UserOf));
    var id := Entry(Id, LastSome(hrefs, ItemOf));
    var points := Entry(Points, LastSome(spans, PointsOf));
    var withId := user + id;
    var withPoints := withId + points;
    KeyOfLeft(withPoints, posted, User);
    KeyOfLeft(withId, points, User);
    KeyOfLeft(user, id, User);
    KeyOfEntry(User, LastSome(hrefs, UserOf));
    KeyOfLeft(withPoints, posted, Id);
    KeyOfLeft(withId, points, Id);
    KeyOfRight(user, id, Id);
    KeyOfEntry(Id, LastSome(hrefs, ItemOf));
    KeyOfLeft(withPoints, posted, Points);
    KeyOfRight(withId, points, Points);
    KeyOfEntry(Points, LastSome(spans, PointsOf));
    KeyOfRight(withPoints, posted, Posted);
  }

  /** Each key the cell adds comes from its own source. */
  lemma MetaFieldsEntries(st: Subtext, now: nat)
    requires MetaFields(st, now).Ok?
    ensures var m := MetaFields(st, now).value;
            && (User in m <==> LastSome(st.hrefs, UserOf).Some?)
            && (User in m ==> LastSome(st.hrefs, UserOf) == Some(m[User]))
            && (Id in m <==> LastSome(st.hrefs, ItemOf).Some?)
            && (Id in m ==> LastSome(st.hrefs, ItemOf) == Some(m[Id]))
            && (Points in m <==> LastSome(st.spans, PointsOf).Some?)
            && (Points in m ==> LastSome(st.spans, PointsOf) == Some(m[Points]))
            && (Posted in m <==> Posted in PostedEntry(st.text, now).value)
            && (Posted in m ==> m[Posted] == PostedEntry(st.text, now).value[Posted])
  {
    KeysOfParts(MetaFields(st, now).value, st.hrefs, st.spans, PostedEntry(st.text, now).value);
  }

  /** A key set from the last hit of `f` in `xs` holds the value of the
      last hit, and is absent when nothing hits. */
  lemma KeyFromLastHit<T>(fields: map<Key, Value>, k: Key, xs: seq<T>, f: T -> Option<Value>)
    requires k in fields <==> LastSome(xs, f).Some?
    requires k in fields ==> LastSome(xs, f) == Some(fields[k])
    ensures k in fields <==> exists i :: 0 <= i < |xs| && f(xs[i]).Some?
    ensures k in fields ==>
              exists i :: 0 <= i < |xs| && f(xs[i]) == Some(fields[k]) &&
                forall j :: i < j < |xs| ==> f(xs[j]).None?
  {
    LastSomeIsLastHit(xs, f);
  }

  /** The metadata a `subtext` cell adds to a story: `user` and `id`
      come from the last link naming one, `points` from the last span
      matching `points_re`, `posted` from the first age phrase of the
      text. */
  lemma StoryMetadata(st: Subtext, now: nat, m: map<Key, Value>)
    requires MetaFields(st, now) == Ok(m)
    ensures User in m <==> exists i :: 0 <= i < |st.hrefs| && UserOf(st.hrefs[i]).Some?
    ensures User in m ==>
              exists i :: 0 <= i < |st.hrefs| && UserOf(st.hrefs[i]) == Some(m[User]) &&
                forall j :: i < j < |st.hrefs| ==> UserOf(st.hrefs[j]).None?
    ensures Id in m <==> exists i :: 0 <= i < |st.hrefs| && ItemOf(st.hrefs[i]).Some?
    ensures Id in m ==>
              exists i :: 0 <= i < |st.hrefs| && ItemOf(st.hrefs[i]) == Some(m[Id]) &&
                forall j :: i < j < |st.hrefs| ==> ItemOf(st.hrefs[j]).None?
    ensures Points in m <==> exists i :: 0 <= i < |st.spans| && PointsOf(st.spans[i]).Some?
    ensures Points in m ==>
              exists i :: 0 <= i < |st.spans| && PointsOf(st.spans[i]) == Some(m[Points]) &&
                forall j :: i < j < |st.spans| ==> PointsOf(st.spans[j]).None?
    ensures Posted in m <==> SearchAge(st.text).Some?
    ensures Posted in m ==>
              var age := SearchAge(st.text).value.age;
              m[Posted].Date? && ParseAge(age.count, age.unit, now) == Ok(m[Posted].day)
  {
    MetaFieldsEntries(st, now);
    PostedEntryMeaning(st.text, now);
    KeyFromLastHit(m, User, st.hrefs, UserOf);
    KeyFromLastHit(m, Id, st.hrefs, ItemOf);
    KeyFromLastHit(m, Points, st.spans, PointsOf);
  }

  /** `get_story_info(title_node)`. */
  method GetStoryInfo(titleLink: Anchor, subtext: Option<Subtext>, now: nat) returns (r: Result<Info, Error>)
    ensures r == StoryInfoOf(titleLink, subtext, now)
  {
    var title := Strip(titleLink.text);
    var link := titleLink.href;
    StripIdempotent(titleLink.text);
    // Test that it's not the "More" link; matching a missing href raises.
    if Strip(title) == "More" {
      if link.None? {
        return Err(MissingHref);
      }
      if MatchMoreLink(link.value) {
        return Ok(More(link.value));
      }
    }
    var d := map[Title := Str(title), Link := HrefValue(link)];
    if subtext.Some? {
      var withMeta := AddMetadata(d, subtext.value, now);
      if withMeta.Err? {
        return Err(withMeta.error);
      }
      d := withMeta.value;
    }
    return Ok(Story(d));
  }

  /** The loop of `get_story_info` over the links of the `subtext` cell:
      a user link sets `user`, an item link sets `id`, a later link
      overwriting an earlier one, and a link without `href` raises. */
  method AddLinks(d0: map<Key, Value>, hrefs: seq<Option<string>>) returns (r: Result<map<Key, Value>, Error>)
    ensures None in hrefs ==> r == Err(MissingHref)
    ensures None !in hrefs ==> r == Ok(d0 + LinkFields(hrefs))
  {
    var d := d0;
    for j := 0 to |hrefs|
      invariant None !in hrefs[..j]
      invariant d == d0 + LinkFields(hrefs[..j])
    {
      var href := hrefs[j];
      if href.None? {
        return Err(MissingHref);
      }
      LinkFieldsStep(d0, hrefs, j);
      var m := MatchMetaLink(href.value);
      if m.Some? {
        var key := if m.value.kind == UserLink then User else Id;
        d := d[key := Str(m.value.value)];
      }
    }
    assert hrefs[..|hrefs|] == hrefs;
    return Ok(d);
  }

  /** The loop of `get_story_info` over the spans of the `subtext` cell:
      each span that reads as points sets `points`, the last one winning. */
  method AddPoints(d0: map<Key, Value>, spans: seq<string>) returns (d: map<Key, Value>)
    ensures d == d0 + Entry(Points, LastSome(spans, PointsOf))
  {
    d := d0;
    for j := 0 to |spans|
      invariant d == d0 + Entry(Points, LastSome(spans[..j], PointsOf))
    {
      PointsStep(d0, spans, j);
      var m := MatchPoints(spans[j]);
      if m.Some? {
        d := d[Points := Number(m.value)];
      }
    }
    assert spans[..|spans|] == spans;
  }

  /** The age step of `get_story_info`: the first age phrase of the
      `subtext` text sets `posted`, and a date `parse_age` cannot make
      raises. */
  method AddPosted(d0: map<Key, Value>, text: string, now: nat) returns (r: Result<map<Key, Value>, Error>)
    ensures r == match PostedEntry(text, now)
                 case Err(e) => Err(e)
                 case Ok(posted) => Ok(d0 + posted)
  {
    var age := SearchAge(text);
    if age.None? {
      PostedNone(d0, text, now);
      return Ok(d0);
    }
    var posted := ParseAge(age.value.age.count, age.value.age.unit, now);
    if posted.Err? {
      return Err(BadAge(posted.error));
    }
    PostedSome(text, now, posted.value);
    UpdateIsUnion(d0, Posted, Date(posted.value));
    return Ok(d0[Posted := Date(posted.value)]);
  }

  /** The `if meta:` block of `get_story_info`: the links, the spans and
      the age phrase of the `subtext` cell, in that order, each
      overwriting keys of the story dictionary. */
  method AddMetadata(d0: map<Key, Value>, st: Subtext, now: nat) returns (r: Result<map<Key, Value>, Error>)
    ensures r == match MetaFields(st, now)
                 case Err(e) => Err(e)
                 case Ok(meta) => Ok(d0 + meta)
  {
    var withLinks := AddLinks(d0, st.hrefs);
    if withLinks.Err? {
      return withLinks;
    }
    var withSpans := AddPoints(withLinks.value, st.spans);
    r := AddPosted(withSpans, st.text, now);
    if r.Ok? {
      UnionAssoc(d0, LinkFields(st.hrefs), Entry(Points, LastSome(st.spans, PointsOf)),
                 PostedEntry(st.text, now).value);
    }
  }

  /** One iteration of the loop of `get_stories` over the cell `cell`,
      from the result `r` of the cells before it. */
  function PageStep(r: Result<Page, Error>, cell: TitleCell, now: nat): Result<Page, Error> {
    match r
    case Err(e) => Err(e)
    case Ok(p) =>
      if cell.links == [] then Ok(p)
      else
        match StoryInfoOf(cell.links[0], cell.subtext, now)
        case Err(e) => Err(e)
        case Ok(More(l)) => Ok(Page(p.items, Some(l)))
        case Ok(Story(f)) => Ok(Page(p.items + [f], p.more))
  }

  /** `get_stories` on a page whose title cells are `doc`, from the first
      cell to the last; an exception aborts the whole page. */
  function PageOf(doc: seq<TitleCell>, now: nat): Result<Page, Error>
    decreases |doc|
  {
    if doc == [] then Ok(Page([], None))
    else PageStep(PageOf(doc[..|doc| - 1], now), doc[|doc| - 1], now)
  }

  /** An exception on the first `i` cells is the exception of the page. */
  lemma {:induction false} PageOfKeepsError(doc: seq<TitleCell>, i: nat, now: nat)
    requires i <= |doc|
    requires PageOf(doc[..i], now).Err?
    ensures PageOf(doc, now) == PageOf(doc[..i], now)
    decreases |doc| - i
  {
    if i < |doc| {
      assert doc[..i + 1][..i] == doc[..i];
      PageOfKeepsError(doc, i + 1, now);
    } else {
      assert doc[..i] == doc;
    }
  }

  /** `get_stories(page)`. */
  method GetStories(doc: seq<TitleCell>, now: nat) returns (r: Result<Page, Error>)
    ensures r == PageOf(doc, now)
  {
    var items: seq<map<Key, Value>> := [];
    var more: Option<string> := None;
    for i := 0 to |doc|
      invariant PageOf(doc[..i], now) == Ok(Page(items, more))
    {
      var row := doc[i];
      assert doc[..i + 1][..i] == doc[..i];
      if row.links == [] {
        // `sel_link(row)[0]` raises IndexError: the cell is skipped.
        continue;
      }
      var d := GetStoryInfo(row.links[0], row.subtext, now);
      match d
      case Err(e) =>
        PageOfKeepsError(doc, i + 1, now);
        return Err(e);
      case Ok(More(link)) =>
        more := Some(link);
      case Ok(Story(fields)) =>
        items := items + [fields];
    }
    assert doc[..|doc|] == doc;
    return Ok(Page(items, more));
  }

  /** The cell's first link is the pagination marker. */
  predicate IsMarkerCell(c: TitleCell) {
    c.links != [] && IsMarker(c.links[0])
  }

  /** The cell's first link is a story. */
  predicate IsStoryCell(c: TitleCell) {
    c.links != [] && !IsMarker(c.links[0])
  }

  /** The href of a marker cell; nothing for any other cell. */
  function MarkerHref(c: TitleCell): Option<string> {
    if IsMarkerCell(c) then c.links[0].href else None
  }

  /** The cells that have a link, in order. */
  function Linked(doc: seq<TitleCell>): (r: seq<TitleCell>)
    ensures forall i :: 0 <= i < |r| ==> r[i].links != []
    decreases |doc|
  {
    if doc == [] then []
    else Linked(doc[..|doc| - 1]) + (if doc[|doc| - 1].links != [] then [doc[|doc| - 1]] else [])
  }

  /** The cells that yield a story, in order. */
  function StoryCells(doc: seq<TitleCell>): (r: seq<TitleCell>)
    ensures forall i :: 0 <= i < |r| ==> IsStoryCell(r[i])
    decreases |doc|
  {
    if doc == [] then []
    else StoryCells(doc[..|doc| - 1]) + (if IsStoryCell(doc[|doc| - 1]) then [doc[|doc| - 1]] else [])
  }

  /** A title cell without a link contributes nothing: the page is what
      its linked cells alone make. */
  lemma {:induction false} PageOfLinkedOnly(doc: seq<TitleCell>, now: nat)
    ensures PageOf(Linked(doc), now) == PageOf(doc, now)
    decreases |doc|
  {
    if doc != [] {
      var init, last := doc[..|doc| - 1], doc[|doc| - 1];
      PageOfLinkedOnly(init, now);
      var l := Linked(doc);
      if last.links != [] {
        assert l[..|l| - 1] == Linked(init) && l[|l| - 1] == last;
        assert PageOf(l, now) == PageStep(PageOf(Linked(init), now), last, now);
      } else {
        assert l == Linked(init);
        assert PageStep(PageOf(init, now), last, now) == PageOf(init, now);
      }
    }
  }

  /** Only the first link of a cell matters: pages whose cells agree on
      having a link, on their first link and on their `subtext` cell are
      read alike. */
  lemma {:induction false} PageOfFirstLinkOnly(doc: seq<TitleCell>, doc': seq<TitleCell>, now: nat)
    requires |doc| == |doc'|
    requires forall i :: 0 <= i < |doc| ==>
               (doc[i].links == [] <==> doc'[i].links == []) &&
               (doc[i].links != [] ==> doc[i].links[0] == doc'[i].links[0]) &&
               doc[i].subtext == doc'[i].subtext
    ensures PageOf(doc, now) == PageOf(doc', now)
    decreases |doc|
  {
    if doc != [] {
      PageOfFirstLinkOnly(doc[..|doc| - 1], doc'[..|doc| - 1], now);
    }
  }

  /** The page fails exactly when some linked cell fails. */
  lemma {:induction false} PageOfFails(doc: seq<TitleCell>, now: nat)
    ensures PageOf(doc, now).Err? <==>
              exists i :: 0 <= i < |doc| && doc[i].links != [] &&
                StoryInfoOf(doc[i].links[0], doc[i].subtext, now).Err?
    decreases |doc|
  {
    if doc != [] {
      var init := doc[..|doc| - 1];
      PageOfFails(init, now);
      assert forall i :: 0 <= i < |init| ==> init[i] == doc[i];
      if PageOf(init, now).Ok? {
        var last := doc[|doc| - 1];
        assert PageOf(doc, now).Err? <==> last.links != [] && StoryInfoOf(last.links[0], last.subtext, now).Err?;
      }
    }
  }

  /** `more` is the href of the last marker cell: every marker overwrites
      it, stories leave it alone. */
  lemma {:induction false} PageOfMoreIsLastMarker(doc: seq<TitleCell>, now: nat, p: Page)
    requires PageOf(doc, now) == Ok(p)
    ensures p.more == LastSome(doc, MarkerHref)
    decreases |doc|
  {
    if doc != [] {
      var init, last := doc[..|doc| - 1], doc[|doc| - 1];
      var p0 := PageOf(init, now).value;
      PageOfMoreIsLastMarker(init, now, p0);
    }
  }

  /** `more` is absent when no cell is a marker, and otherwise is the href
      of a marker cell after which no marker follows. */
  lemma PageMore(doc: seq<TitleCell>, now: nat, p: Page)
    requires PageOf(doc, now) == Ok(p)
    ensures p.more.None? <==> forall i :: 0 <= i < |doc| ==> !IsMarkerCell(doc[i])
    ensures p.more.Some? ==>
              exists i :: 0 <= i < |doc| && IsMarkerCell(doc[i]) && doc[i].links[0].href == p.more &&
                forall j :: i < j < |doc| ==> !IsMarkerCell(doc[j])
  {
    PageOfMoreIsLastMarker(doc, now, p);
    LastSomeIsLastHit(doc, MarkerHref);
    assert forall i :: 0 <= i < |doc| ==> (MarkerHref(doc[i]).Some? <==> IsMarkerCell(doc[i]));
  }

  /** The items are the stories of the story cells, one per cell and in
      the cells' order; marker cells and linkless cells yield no item. */
  lemma {:induction false} PageItems(doc: seq<TitleCell>, now: nat, p: Page)
    requires PageOf(doc, now) == Ok(p)
    ensures |p.items| == |StoryCells(doc)|
    ensures forall k :: 0 <= k < |p.items| ==>
              StoryInfoOf(StoryCells(doc)[k].links[0], StoryCells(doc)[k].subtext, now) == Ok(Story(p.items[k]))
    decreases |doc|
  {
    if doc != [] {
      var init, last := doc[..|doc| - 1], doc[|doc| - 1];
      var p0 := PageOf(init, now).value;
      PageItems(init, now, p0);
      if IsStoryCell(last) {
        assert StoryCells(doc) == StoryCells(init) + [last];
      }
    }
  }

}
