/** The off-hours schedule language (c7n/filters/offhours.py, ScheduleParser). */
module Schedule {
  import opened Text
  import opened Wrappers

  /** Hours at which something happens on some days; Monday is day 0. */
  datatype Item = Item(days: seq<nat>, hour: nat)

  datatype Entry = Times(items: seq<Item>) | Zone(name: string)

  type Parsed = map<string, Entry>

  // ----- What the parser computes

  const DAY_NAMES := "mtwhfsu"

  function DayNumber(s: string): Option<nat> {
    if s == "m" then Some(0) else if s == "t" then Some(1) else if s == "w" then Some(2)
    else if s == "h" then Some(3) else if s == "f" then Some(4) else if s == "s" then Some(5)
    else if s == "u" then Some(6) else None
  }

  /** The days that some of the pieces name; the other pieces are passed over. */
  function DayNumbers(pieces: seq<string>): seq<nat> {
    if pieces == [] then []
    else
      var d := DayNumber(pieces[0]);
      (if d.Some? then [d.value] else []) + DayNumbers(pieces[1..])
  }

  /** The numbers from lo up to hi, without hi. */
  function Range(lo: nat, hi: nat): (r: seq<nat>)
    ensures |r| == if lo < hi then hi - lo else 0
    ensures forall i | 0 <= i < |r| :: r[i] == lo + i
    decreases hi - lo
  {
    if lo >= hi then [] else [lo] + Range(lo + 1, hi)
  }

  /** expand_day_range; None also stands for the empty answer. */
  function ExpandDays(days: string): Option<seq<nat>> {
    if DayNumber(days).Some? then Some([DayNumber(days).value])
    else
      var r := DayNumbers(Split(days, '-'));
      if |r| != 2 then None
      else if r[0] > r[1] then Some(Range(r[0], 7) + Range(0, r[1] + 1))
      else Some(Range(r[0], r[1] + 1))
  }

  predicate IsDigit(c: char) { '0' <= c <= '9' }

  /** str.isdigit, on ASCII digits */
  predicate IsNumber(s: string) {
    s != "" && forall i | 0 <= i < |s| :: IsDigit(s[i])
  }

  function DigitValue(c: char): nat
    requires IsDigit(c)
  {
    c as int - '0' as int
  }

  function ToInt(s: string): nat
    requires forall i | 0 <= i < |s| :: IsDigit(s[i])
  {
    if s == "" then 0 else ToInt(s[..|s| - 1]) * 10 + DigitValue(s[|s| - 1])
  }

  /** One "days,hour" of a time specification, parentheses gone. */
  function ParseItem(e: string): Option<Item> {
    var tokens := Split(Without(e, '(', ')'), ',');
    if |tokens| != 2 || !IsNumber(tokens[1]) || ToInt(tokens[1]) >= 24 then None
    else match ExpandDays(tokens[0])
      case None => None
      case Some(days) => Some(Item(days, ToInt(tokens[1])))
  }

  function ParseItems(exprs: seq<string>): Option<seq<Item>> {
    if exprs == [] then Some([])
    else match ParseItem(exprs[0])
      case None => None
      case Some(item) =>
        match ParseItems(exprs[1..])
        case None => None
        case Some(items) => Some([item] + items)
  }

  /** parse_resource_schedule */
  function ParseTimes(lexeme: string): Option<seq<Item>> {
    ParseItems(Split2(Without(lexeme, '[', ']'), ',', '('))
  }

  /** One key=value component. */
  function ParsePiece(piece: string): Option<(string, Entry)> {
    var kv := Split(piece, '=');
    if |kv| != 2 then None
    else if kv[0] == "tz" then Some((kv[0], Zone(kv[1])))
    else match ParseTimes(kv[1])
      case None => None
      case Some(items) => Some((kv[0], Times(items)))
  }

  function ParsePieces(pieces: seq<string>, schedule: Parsed): Option<Parsed>
    decreases |pieces|
  {
    if pieces == [] then Some(schedule)
    else match ParsePiece(pieces[0])
      case None => None
      case Some((key, entry)) => ParsePieces(pieces[1..], schedule[key := entry])
  }

  /** The pieces raw_data looks at: cut at blanks as well as at semicolons. */
  function RawPieces(parts: seq<string>): seq<string> {
    if parts == [] then [] else Split(parts[0], ';') + RawPieces(parts[1..])
  }

  predicate KeysAreValid(tag: string) {
    forall piece | piece in RawPieces(Split(tag, ' ')) ::
      var kv := Split(piece, '=');
      |kv| == 2 ==> kv[0] == "on" || kv[0] == "off" || kv[0] == "tz"
  }

  /** parse, without the cache. */
  function ParseTag(tag: string, defaultZone: string): Option<Parsed> {
    if !KeysAreValid(tag) then None
    else match ParsePieces(Split(tag, ';'), map[])
      case None => None
      case Some(schedule) =>
        Some(if "tz" in schedule && schedule["tz"] != Zone("") then schedule
             else schedule["tz" := Zone(defaultZone)])
  }

  // ----- Whatever is accepted is well formed

  ghost predicate GoodDays(days: seq<nat>) {
    && days != []
    && (forall i | 0 <= i < |days| :: days[i] < 7)
    && (forall i, j | 0 <= i < j < |days| :: days[i] != days[j])
  }

  ghost predicate GoodItem(item: Item) {
    GoodDays(item.days) && item.hour < 24
  }

  ghost predicate GoodEntry(key: string, entry: Entry) {
    if key == "tz" then entry.Zone?
    else entry.Times? && entry.items != [] && forall i | 0 <= i < |entry.items| :: GoodItem(entry.items[i])
  }

  ghost predicate GoodSchedule(schedule: Parsed) {
    "tz" in schedule && forall k | k in schedule :: GoodEntry(k, schedule[k])
  }

  lemma {:induction false} DayNumbersSmall(pieces: seq<string>)
    ensures forall i | 0 <= i < |DayNumbers(pieces)| :: DayNumbers(pieces)[i] < 7
  {
    if pieces != [] {
      DayNumbersSmall(pieces[1..]);
    }
  }

  lemma SpansAreGood(a: nat, b: nat)
    requires a < 7 && b < 7
    ensures a <= b ==> GoodDays(Range(a, b + 1))
    ensures a > b ==> GoodDays(Range(a, 7) + Range(0, b + 1))
  {}

  lemma ExpandedDaysAreGood(days: string)
    ensures ExpandDays(days).Some? ==> GoodDays(ExpandDays(days).value)
  {
    var r := DayNumbers(Split(days, '-'));
    DayNumbersSmall(Split(days, '-'));
    if |r| == 2 {
      SpansAreGood(r[0], r[1]);
    }
  }

  lemma {:induction false} ParsedItemsAreGood(exprs: seq<string>)
    ensures ParseItems(exprs).Some? ==>
      |ParseItems(exprs).value| == |exprs|
      && forall i | 0 <= i < |exprs| :: GoodItem(ParseItems(exprs).value[i])
  {
    if exprs != [] {
      var tokens := Split(Without(exprs[0], '(', ')'), ',');
      ExpandedDaysAreGood(tokens[0]);
      ParsedItemsAreGood(exprs[1..]);
    }
  }

  lemma {:induction false} ParsedPiecesAreGood(pieces: seq<string>, schedule: Parsed)
    requires forall k | k in schedule :: GoodEntry(k, schedule[k])
    ensures ParsePieces(pieces, schedule).Some? ==>
      forall k | k in ParsePieces(pieces, schedule).value :: GoodEntry(k, ParsePieces(pieces, schedule).value[k])
    decreases |pieces|
  {
    if pieces != [] {
      var kv := Split(pieces[0], '=');
      if |kv| == 2 {
        ParsedItemsAreGood(Split2(Without(kv[1], '[', ']'), ',', '('));
      }
      var p := ParsePiece(pieces[0]);
      if p.Some? {
        ParsedPiecesAreGood(pieces[1..], schedule[p.value.0 := p.value.1]);
      }
    }
  }

  /** Everything parse accepts has a time zone, hours from 0 to 23, and non-empty lists of
      distinct days of the week. */
  lemma AcceptedIsGood(tag: string, defaultZone: string)
    ensures ParseTag(tag, defaultZone).Some? ==> GoodSchedule(ParseTag(tag, defaultZone).value)
  {
    ParsedPiecesAreGood(Split(tag, ';'), map[]);
  }

  // ----- The parser object

  /** The items so far, with those of the rest; None when the rest has a bad one. */
  function After(parsed: seq<Item>, rest: Option<seq<Item>>): Option<seq<Item>> {
    match rest
    case None => None
    case Some(items) => Some(parsed + items)
  }

  lemma AfterNothing(rest: Option<seq<Item>>)
    ensures After([], rest) == rest
  {
    if rest.Some? {
      assert [] + rest.value == rest.value;
    }
  }

  lemma AfterOneMore(parsed: seq<Item>, item: Item, rest: Option<seq<Item>>)
    ensures After(parsed, After([item], rest)) == After(parsed + [item], rest)
  {
    if rest.Some? {
      assert parsed + ([item] + rest.value) == parsed + [item] + rest.value;
    }
  }

  class ScheduleParser {
    const defaultZone: string
    var cache: map<string, Parsed>

    /** Every cached answer is the one parsing would give. */
    ghost predicate Valid()
      reads this
    {
      forall t | t in cache :: ParseTag(t, defaultZone) == Some(cache[t])
    }

    constructor (defaultZone: string)
      ensures Valid() && this.defaultZone == defaultZone && cache == map[]
    {
      this.defaultZone := defaultZone;
      cache := map[];
    }

    /** parse: the answer does not depend on what was asked before. */
    method Parse(tag: string) returns (r: Option<Parsed>)
      requires Valid()
      modifies this
      ensures Valid()
      ensures r == ParseTag(tag, defaultZone)
      ensures cache == if r.Some? then old(cache)[tag := r.value] else old(cache)
    {
      if tag in cache {
        assert cache == cache[tag := cache[tag]];
        return Some(cache[tag]);
      }
      if !KeysAreValid(tag) {
        return None;
      }
      var pieces := Split(tag, ';');
      var schedule: Parsed := map[];
      assert pieces[0..] == pieces;
      for i := 0 to |pieces|
        invariant cache == old(cache) && ParsePieces(pieces[i..], schedule) == ParsePieces(pieces, map[])
      {
        var kv := Split(pieces[i], '=');
        assert pieces[i..][0] == pieces[i] && pieces[i..][1..] == pieces[i + 1..];
        if |kv| != 2 {
          return None;
        }
        if kv[0] == "tz" {
          schedule := schedule[kv[0] := Zone(kv[1])];
        } else {
          var items := ParseResourceSchedule(kv[1]);
          if items.None? {
            return None;
          }
          schedule := schedule[kv[0] := Times(items.value)];
        }
      }
      if "tz" !in schedule || schedule["tz"] == Zone("") {
        schedule := schedule["tz" := Zone(defaultZone)];
      }
      cache := cache[tag := schedule];
      return Some(schedule);
    }

    /** parse_resource_schedule */
    method ParseResourceSchedule(lexeme: string) returns (r: Option<seq<Item>>)
      ensures r == ParseTimes(lexeme)
    {
      var exprs := Split2(Without(lexeme, '[', ']'), ',', '(');
      var parsed: seq<Item> := [];
      assert exprs[0..] == exprs;
      AfterNothing(ParseItems(exprs));
      for i := 0 to |exprs|
        invariant ParseItems(exprs) == After(parsed, ParseItems(exprs[i..]))
      {
        assert exprs[i..][0] == exprs[i] && exprs[i..][1..] == exprs[i + 1..];
        var tokens := Split(Without(exprs[i], '(', ')'), ',');
        if |tokens| != 2 {
          return None;
        }
        if !IsNumber(tokens[1]) {
          return None;
        }
        var hour := ToInt(tokens[1]);
        if hour >= 24 {
          return None;
        }
        var days := ExpandDays(tokens[0]);
        if days.None? {
          return None;
        }
        var item := Item(days.value, hour);
        assert ParseItem(exprs[i]) == Some(item);
        AfterOneMore(parsed, item, ParseItems(exprs[i + 1..]));
        parsed := parsed + [item];
      }
      assert exprs[|exprs|..] == [] && parsed + [] == parsed;
      return Some(parsed);
    }
  }
}
