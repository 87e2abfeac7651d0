/** The documented grammar of schedules, written out from its own syntax trees: every text
    of the grammar parses to what it says (c7n/filters/offhours.py). */
module ScheduleGrammar {
  import opened Text
  import opened Schedule
  import opened Wrappers

  datatype Days = Day(day: nat) | Span(first: nat, last: nat)

  datatype Spec = Spec(days: Days, hour: nat)

  datatype Component =
    | Hours(key: string, specs: seq<Spec>, bracketed: bool)
    | TimeZone(name: string)

  // ----- Meaning

  /** A span runs on from Sunday to Monday when it has to. */
  ghost function Meant(d: Days): seq<nat>
    requires GoodSpan(d)
  {
    match d
    case Day(n) => [n]
    case Span(a, b) => seq((b - a) % 7 + 1, i requires 0 <= i => (a + i) % 7)
  }

  ghost predicate GoodSpan(d: Days) {
    match d case Day(n) => n < 7 case Span(a, b) => a < 7 && b < 7
  }

  ghost predicate GoodSpecs(specs: seq<Spec>) {
    forall i | 0 <= i < |specs| :: GoodSpan(specs[i].days) && specs[i].hour < 24
  }

  ghost predicate GoodComponent(c: Component) {
    match c
    case Hours(key, specs, bracketed) =>
      (key == "on" || key == "off") && specs != [] && (|specs| > 1 ==> bracketed) && GoodSpecs(specs)
    case TimeZone(name) => Plain(name)
  }

  ghost function MeantItems(specs: seq<Spec>): seq<Item>
    requires GoodSpecs(specs)
  {
    if specs == [] then [] else [Item(Meant(specs[0].days), specs[0].hour)] + MeantItems(specs[1..])
  }

  ghost function MeantEntry(c: Component): (string, Entry)
    requires GoodComponent(c)
  {
    match c
    case Hours(key, specs, _) => (key, Times(MeantItems(specs)))
    case TimeZone(name) => ("tz", Zone(name))
  }

  /** A later component of the same name replaces an earlier one. */
  ghost function MeantAll(cs: seq<Component>, sofar: Parsed): Parsed
    requires forall c | c in cs :: GoodComponent(c)
    decreases |cs|
  {
    if cs == [] then sofar
    else
      var (key, entry) := MeantEntry(cs[0]);
      assert forall c | c in cs[1..] :: c in cs;
      MeantAll(cs[1..], sofar[key := entry])
  }

  // ----- Text

  function DayText(d: nat): string
    requires d < 7
  {
    [DAY_NAMES[d]]
  }

  function DaysText(d: Days): string
    requires GoodSpan(d)
  {
    match d case Day(n) => DayText(n) case Span(a, b) => DayText(a) + "-" + DayText(b)
  }

  function Digit(n: nat): char
    requires n < 10
  {
    "0123456789"[n]
  }

  function HourText(h: nat): string
    requires h < 24
  {
    if h < 10 then [Digit(h)] else [Digit(h / 10), Digit(h % 10)]
  }

  ghost function Core(s: Spec): string
    requires GoodSpan(s.days) && s.hour < 24
  {
    DaysText(s.days) + "," + HourText(s.hour)
  }

  /** (days,hour) of each */
  ghost function SpecTexts(specs: seq<Spec>): (r: seq<string>)
    requires GoodSpecs(specs)
    ensures |r| == |specs|
  {
    if specs == [] then [] else ["(" + Core(specs[0]) + ")"] + SpecTexts(specs[1..])
  }

  ghost function ComponentText(c: Component): string
    requires GoodComponent(c)
  {
    match c
    case Hours(key, specs, bracketed) =>
      var list := Join(SpecTexts(specs), ",");
      key + "=" + (if bracketed then "[" + list + "]" else list)
    case TimeZone(name) => "tz=" + name
  }

  ghost function ComponentTexts(cs: seq<Component>): (r: seq<string>)
    requires forall c | c in cs :: GoodComponent(c)
    ensures |r| == |cs|
  {
    if cs == [] then []
    else
      assert forall c | c in cs[1..] :: c in cs;
      [ComponentText(cs[0])] + ComponentTexts(cs[1..])
  }

  ghost function TagText(cs: seq<Component>): string
    requires forall c | c in cs :: GoodComponent(c)
  {
    Join(ComponentTexts(cs), ";")
  }

  // ----- Characters that mean something to the parser

  ghost predicate Plain(s: string) {
    ';' !in s && '=' !in s && ' ' !in s
  }

  ghost predicate Bare(s: string) {
    Plain(s) && '(' !in s && ')' !in s && '[' !in s && ']' !in s
  }

  lemma DayTextIsBare(d: nat)
    requires d < 7
    ensures Bare(DayText(d)) && ',' !in DayText(d) && '-' !in DayText(d)
    ensures DayNumber(DayText(d)) == Some(d)
  {
  }

  lemma HourTextIsNumber(h: nat)
    requires h < 24
    ensures IsNumber(HourText(h)) && ToInt(HourText(h)) == h
    ensures Bare(HourText(h)) && ',' !in HourText(h)
  {
    var t := HourText(h);
    if h < 10 {
      assert t[..0] == "" && ToInt(t[..0]) == 0;
    } else {
      assert t[..1] == [Digit(h / 10)];
      assert t[..1][..0] == "" && ToInt(t[..1][..0]) == 0;
      assert ToInt(t[..1]) == h / 10;
    }
  }

  lemma SpanPieces(a: nat, b: nat)
    requires a < 7 && b < 7
    ensures DayNumbers(Split(DayText(a) + "-" + DayText(b), '-')) == [a, b]
  {
    DayTextIsBare(a);
    DayTextIsBare(b);
    SplitAt(DayText(a), '-', DayText(b));
    SplitAbsent(DayText(b), '-');
    var pieces := [DayText(a)] + [DayText(b)];
    assert pieces[1..] == [DayText(b)] && pieces[1..][1..] == [];
    assert DayNumbers(pieces[1..][1..]) == [];
    assert DayNumbers(pieces[1..]) == [b] + [];
  }

  lemma ModSeven(x: int)
    requires -7 < x < 14
    ensures x % 7 == if x < 0 then x + 7 else if x < 7 then x else x - 7
  {}

  lemma SpanIsCyclic(a: nat, b: nat)
    requires a < 7 && b < 7
    ensures Meant(Span(a, b)) == if a > b then Range(a, 7) + Range(0, b + 1) else Range(a, b + 1)
  {
    var r := if a > b then Range(a, 7) + Range(0, b + 1) else Range(a, b + 1);
    var n := if a > b then b - a + 8 else b - a + 1;
    ModSeven(b - a);
    assert |r| == n == |Meant(Span(a, b))|;
    forall i | 0 <= i < n
      ensures r[i] == Meant(Span(a, b))[i]
    {
      ModSeven(a + i);
    }
  }

  lemma SpanTextIsNoDay(a: nat, b: nat)
    requires a < 7 && b < 7
    ensures DayNumber(DayText(a) + "-" + DayText(b)) == Option<nat>.None
  {
    assert |DayText(a) + "-" + DayText(b)| == 3;
  }

  /** Ranges come out in day order, wrap-around included. */
  lemma ExpandMeant(d: Days)
    requires GoodSpan(d)
    ensures ExpandDays(DaysText(d)) == Some(Meant(d))
    ensures Bare(DaysText(d)) && ',' !in DaysText(d)
  {
    match d
    case Day(n) => DayTextIsBare(n);
    case Span(a, b) =>
      DayTextIsBare(a);
      DayTextIsBare(b);
      SpanPieces(a, b);
      SpanIsCyclic(a, b);
      SpanTextIsNoDay(a, b);
  }

  lemma CoreIsBare(s: Spec)
    requires GoodSpan(s.days) && s.hour < 24
    ensures Bare(Core(s))
    ensures Split(Core(s), ',') == [DaysText(s.days), HourText(s.hour)]
  {
    ExpandMeant(s.days);
    HourTextIsNumber(s.hour);
    SplitAt(DaysText(s.days), ',', HourText(s.hour));
    SplitAbsent(HourText(s.hour), ',');
  }

  lemma ItemMeant(e: string, s: Spec)
    requires GoodSpan(s.days) && s.hour < 24
    requires Without(e, '(', ')') == Core(s)
    ensures ParseItem(e) == Some(Item(Meant(s.days), s.hour))
  {
    CoreIsBare(s);
    ExpandMeant(s.days);
    HourTextIsNumber(s.hour);
  }

  // ----- The list of a component

  /** The pieces that splitting at ",(" gives: all but the first have lost their "(". */
  ghost function Tails(specs: seq<Spec>): (r: seq<string>)
    requires GoodSpecs(specs)
    ensures |r| == |specs|
  {
    if specs == [] then [] else [Core(specs[0]) + ")"] + Tails(specs[1..])
  }

  lemma OpenedOutside(c: string, rest: string)
    ensures ("(" + c + ")") + "," + ("(" + rest) == "(" + ((c + ")") + ",(" + rest)
  {
  }

  lemma {:induction false} ListIsTails(specs: seq<Spec>)
    requires GoodSpecs(specs) && specs != []
    ensures Join(SpecTexts(specs), ",") == "(" + Join(Tails(specs), ",(")
  {
    var texts, tails := SpecTexts(specs), Tails(specs);
    assert texts[0] == "(" + Core(specs[0]) + ")" && tails[0] == Core(specs[0]) + ")";
    if |specs| > 1 {
      ListIsTails(specs[1..]);
      OpenedOutside(Core(specs[0]), Join(Tails(specs[1..]), ",("));
      assert texts[1..] == SpecTexts(specs[1..]) && tails[1..] == Tails(specs[1..]);
    } else {
      assert "(" + Core(specs[0]) + ")" == "(" + (Core(specs[0]) + ")");
    }
  }

  lemma JoinHead(head: string, parts: seq<string>, sep: string)
    requires parts != []
    ensures head + Join(parts, sep) == Join([head + parts[0]] + parts[1..], sep)
  {
    var q := [head + parts[0]] + parts[1..];
    assert q[1..] == parts[1..];
    if |parts| > 1 {
      assert head + (parts[0] + sep + Join(parts[1..], sep)) == (head + parts[0]) + sep + Join(parts[1..], sep);
    }
  }

  lemma {:induction false} TailsAreWhole(specs: seq<Spec>)
    requires GoodSpecs(specs)
    ensures forall i | 0 <= i < |specs| :: Tails(specs)[i] == Core(specs[i]) + ")"
  {
    if specs != [] {
      TailsAreWhole(specs[1..]);
      forall i | 1 <= i < |specs|
        ensures Tails(specs)[i] == Core(specs[i]) + ")"
      {
        assert Tails(specs)[i] == Tails(specs[1..])[i - 1] && specs[i] == specs[1..][i - 1];
      }
    }
  }

  lemma PieceIsWhole(s: Spec, first: bool)
    requires GoodSpan(s.days) && s.hour < 24
    ensures var p := (if first then "(" else "") + (Core(s) + ")");
      NoPair(p, ',', '(') && Without(p, '(', ')') == Core(s)
  {
    CoreIsBare(s);
    var open := if first then "(" else "";
    var p := open + (Core(s) + ")");
    forall j | 0 < j < |p|
      ensures p[j] != '('
    {
      var k := j - |open|;
      assert p[j] == (Core(s) + ")")[k];
      if k < |Core(s)| {
        assert Core(s)[k] in Core(s);
      }
    }
    WithoutAppend(open, Core(s) + ")", '(', ')');
    WithoutAppend(Core(s), ")", '(', ')');
    WithoutAbsent(Core(s), '(', ')');
    assert Without("(", '(', ')') == "" by { assert "("[1..] == ""; }
    assert Without(")", '(', ')') == "" by { assert ")"[1..] == ""; }
  }

  lemma {:induction false} ItemsMeant(specs: seq<Spec>, parts: seq<string>)
    requires GoodSpecs(specs) && |parts| == |specs|
    requires forall i | 0 <= i < |specs| :: Without(parts[i], '(', ')') == Core(specs[i])
    ensures ParseItems(parts) == Some(MeantItems(specs))
    decreases |specs|
  {
    if specs != [] {
      ItemMeant(parts[0], specs[0]);
      assert forall i | 0 <= i < |specs| - 1 :: parts[1..][i] == parts[i + 1] && specs[1..][i] == specs[i + 1];
      ItemsMeant(specs[1..], parts[1..]);
    }
  }

  lemma ListMeant(specs: seq<Spec>)
    requires GoodSpecs(specs) && specs != []
    ensures ParseItems(Split2(Join(SpecTexts(specs), ","), ',', '(')) == Some(MeantItems(specs))
  {
    var tails := Tails(specs);
    var parts := ["(" + tails[0]] + tails[1..];
    ListIsTails(specs);
    JoinHead("(", tails, ",(");
    TailsAreWhole(specs);
    forall i | 0 <= i < |specs|
      ensures NoPair(parts[i], ',', '(') && Without(parts[i], '(', ')') == Core(specs[i])
    {
      PieceIsWhole(specs[i], i == 0);
      assert "" + (Core(specs[i]) + ")") == Core(specs[i]) + ")";
      assert i > 0 ==> parts[i] == tails[i];
    }
    assert Join(parts, ",(") == Join(parts, [',', '(']);
    Split2Join(parts, ',', '(');
    ItemsMeant(specs, parts);
  }

  // ----- Components

  lemma {:induction false} ListCharacters(specs: seq<Spec>)
    requires GoodSpecs(specs)
    ensures Plain(Join(SpecTexts(specs), ","))
    ensures '[' !in Join(SpecTexts(specs), ",") && ']' !in Join(SpecTexts(specs), ",")
  {
    if specs != [] {
      CoreIsBare(specs[0]);
      ListCharacters(specs[1..]);
      assert SpecTexts(specs)[1..] == SpecTexts(specs[1..]);
    }
  }

  lemma BracketsGo(list: string)
    requires '[' !in list && ']' !in list
    ensures Without(list, '[', ']') == list && Without("[" + list + "]", '[', ']') == list
  {
    WithoutAbsent(list, '[', ']');
    WithoutAppend("[" + list, "]", '[', ']');
    WithoutAppend("[", list, '[', ']');
    assert Without("[", '[', ']') == "" by { assert "["[1..] == ""; }
    assert Without("]", '[', ']') == "" by { assert "]"[1..] == ""; }
  }

  lemma KeyValue(key: string, value: string)
    requires '=' !in key && '=' !in value
    ensures Split(key + "=" + value, '=') == [key, value]
  {
    SplitAt(key, '=', value);
    SplitAbsent(value, '=');
  }

  lemma ValueMeant(specs: seq<Spec>, bracketed: bool)
    requires GoodSpecs(specs) && specs != []
    ensures var list := Join(SpecTexts(specs), ",");
      var value := if bracketed then "[" + list + "]" else list;
      Plain(value) && ParseTimes(value) == Some(MeantItems(specs))
  {
    ListCharacters(specs);
    BracketsGo(Join(SpecTexts(specs), ","));
    ListMeant(specs);
  }

  lemma PieceMeant(piece: string, key: string, value: string, items: seq<Item>)
    requires Split(piece, '=') == [key, value] && key != "tz" && ParseTimes(value) == Some(items)
    ensures ParsePiece(piece) == Some((key, Times(items)))
  {}

  lemma ComponentMeant(c: Component)
    requires GoodComponent(c)
    ensures ParsePiece(ComponentText(c)) == Some(MeantEntry(c))
    ensures ';' !in ComponentText(c) && ' ' !in ComponentText(c)
    ensures Split(ComponentText(c), '=')[0] in ["on", "off", "tz"]
  {
    match c
    case TimeZone(name) =>
      assert "tz=" + name == "tz" + "=" + name;
      KeyValue("tz", name);
    case Hours(key, specs, bracketed) => HoursMeant(key, specs, bracketed);
  }

  lemma HoursMeant(key: string, specs: seq<Spec>, bracketed: bool)
    requires GoodComponent(Hours(key, specs, bracketed))
    ensures var t := ComponentText(Hours(key, specs, bracketed));
      ParsePiece(t) == Some((key, Times(MeantItems(specs)))) && ';' !in t && ' ' !in t && Split(t, '=')[0] == key
  {
    var list := Join(SpecTexts(specs), ",");
    var value := if bracketed then "[" + list + "]" else list;
    ValueMeant(specs, bracketed);
    KeyIsPlain(key);
    KeyValue(key, value);
    PieceMeant(key + "=" + value, key, value, MeantItems(specs));
    AbsentFromPair(key, value, ';');
    AbsentFromPair(key, value, ' ');
  }

  lemma KeyIsPlain(key: string)
    requires key == "on" || key == "off"
    ensures key != "tz" && '=' !in key && ';' !in key && ' ' !in key
  {}

  lemma AbsentFromPair(key: string, value: string, ch: char)
    requires ch !in key && ch != '=' && ch !in value
    ensures ch !in key + "=" + value
  {}

  lemma {:induction false} ComponentsMeant(cs: seq<Component>, sofar: Parsed)
    requires forall c | c in cs :: GoodComponent(c)
    ensures ParsePieces(ComponentTexts(cs), sofar) == Some(MeantAll(cs, sofar))
    decreases |cs|
  {
    if cs != [] {
      ComponentMeant(cs[0]);
      assert forall c | c in cs[1..] :: c in cs;
      var (key, entry) := MeantEntry(cs[0]);
      ComponentsMeant(cs[1..], sofar[key := entry]);
    }
  }

  lemma {:induction false} TextsAreComponents(cs: seq<Component>)
    requires forall c | c in cs :: GoodComponent(c)
    ensures forall t | t in ComponentTexts(cs) ::
      ';' !in t && ' ' !in t && Split(t, '=')[0] in ["on", "off", "tz"]
    decreases |cs|
  {
    if cs != [] {
      ComponentMeant(cs[0]);
      assert forall c | c in cs[1..] :: c in cs;
      TextsAreComponents(cs[1..]);
    }
  }

  lemma {:induction false} JoinHasNoBlank(parts: seq<string>)
    requires forall p | p in parts :: ' ' !in p
    ensures ' ' !in Join(parts, ";")
  {
    if |parts| > 1 {
      assert parts[0] in parts && forall p | p in parts[1..] :: p in parts;
      JoinHasNoBlank(parts[1..]);
    }
  }

  /** Every text of the documented grammar parses to exactly the days and hours it lists, with
      the default time zone when it names none or a blank one. */
  lemma GrammarIsUnderstood(cs: seq<Component>, defaultZone: string)
    requires cs != [] && forall c | c in cs :: GoodComponent(c)
    ensures var meant := MeantAll(cs, map[]);
      ParseTag(TagText(cs), defaultZone) ==
      Some(if "tz" in meant && meant["tz"] != Zone("") then meant else meant["tz" := Zone(defaultZone)])
  {
    var texts := ComponentTexts(cs);
    var tag := TagText(cs);
    TextsAreComponents(cs);
    JoinHasNoBlank(texts);
    SplitAbsent(tag, ' ');
    SplitJoin(texts, ';');
    assert Join(texts, ";") == Join(texts, [';']);
    var blanks := [tag];
    assert blanks[1..] == [] && RawPieces(blanks[1..]) == [];
    assert RawPieces(blanks) == texts + [];
    assert KeysAreValid(tag);
    ComponentsMeant(cs, map[]);
  }
}
