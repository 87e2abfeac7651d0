/** Exactly which tags are schedules, and what they say, in terms of how the text is put together
    and without the parser's own functions (c7n/filters/offhours.py: ScheduleParser). */
module ScheduleExact {
  import opened Schedule
  import opened ScheduleGrammar
  import opened Sequences
  import opened Text
  import opened Wrappers

  // ----- How a tag is written

  function Place(c: char): nat {
    if c == '1' then 1 else if c == '2' then 2 else if c == '3' then 3 else if c == '4' then 4
    else if c == '5' then 5 else if c == '6' then 6 else if c == '7' then 7 else if c == '8' then 8
    else if c == '9' then 9 else 0
  }

  function PowerOfTen(n: nat): nat {
    if n == 0 then 1 else 10 * PowerOfTen(n - 1)
  }

  /** Each digit counts ten times as much as the one behind it. */
  function Decimal(s: string): nat {
    if s == "" then 0 else Place(s[0]) * PowerOfTen(|s| - 1) + Decimal(s[1..])
  }

  ghost predicate HourWritten(text: string, hour: nat) {
    text != "" && (forall c | c in text :: c in "0123456789") && Decimal(text) == hour && hour < 24
  }

  ghost predicate IsDay(word: string, day: nat) {
    day < 7 && word == DayText(day)
  }

  function DayWord(): string -> bool {
    (w: string) => w in {"m", "t", "w", "h", "f", "s", "u"}
  }

  /** The days that some of the words name; other words do not count. */
  ghost predicate NamesDays(words: seq<string>, days: seq<nat>) {
    var named := Select(words, DayWord());
    |named| == |days| && forall i | 0 <= i < |days| :: IsDay(named[i], days[i])
  }

  /** One day, or words of which exactly two name days, the first and the last of a range. */
  ghost predicate DaysWritten(text: string, days: seq<nat>) {
    if exists day: nat :: IsDay(text, day) then exists day: nat :: IsDay(text, day) && days == [day]
    else
      exists words, first_: nat, last: nat ::
        RangeWritten(text, words, first_, last) && days == Meant(Span(first_, last))
  }

  ghost predicate RangeWritten(text: string, words: seq<string>, first_: nat, last: nat) {
    && Cut(text, words, '-') && first_ < 7 && last < 7 && NamesDays(words, [first_, last])
  }

  function NoneOf(a: char, b: char): char -> bool {
    (c: char) => c != a && c != b
  }

  /** Days and hour, with any parentheses. */
  ghost predicate ItemWritten(text: string, item: Item) {
    exists days, hour :: PairWritten(text, days, hour) && HourWritten(hour, item.hour) && DaysWritten(days, item.days)
  }

  ghost predicate PairWritten(text: string, days: string, hour: string) {
    Select(text, NoneOf('(', ')')) == days + "," + hour && ',' !in days && ',' !in hour
  }

  /** Items, cut where a comma meets an opening parenthesis, with any brackets. */
  ghost predicate TimesWritten(text: string, items: seq<Item>) {
    exists parts :: ListWritten(text, parts) && ItemsWritten(parts, items)
  }

  ghost predicate ItemsWritten(parts: seq<string>, items: seq<Item>) {
    |parts| == |items| && forall i | 0 <= i < |parts| :: ItemWritten(parts[i], items[i])
  }

  ghost predicate ListWritten(text: string, parts: seq<string>) {
    && parts != [] && Select(text, NoneOf('[', ']')) == Join(parts, ",(")
    && forall p | p in parts :: NoPair(p, ',', '(')
  }

  ghost predicate PieceWritten(text: string, key: string, entry: Entry) {
    exists value :: KeyedWritten(text, key, value) &&
      if key == "tz" then entry == Zone(value) else entry.Times? && TimesWritten(value, entry.items)
  }

  ghost predicate KeyedWritten(text: string, key: string, value: string) {
    text == key + "=" + value && '=' !in key && '=' !in value
  }

  /** The entry of a key is the last one given for it. */
  ghost predicate LastWins(entries: seq<(string, Entry)>, schedule: Parsed) {
    && (forall k :: k in schedule <==> exists i | 0 <= i < |entries| :: entries[i].0 == k)
    && (forall i | 0 <= i < |entries| ::
          (forall j | i < j < |entries| :: entries[j].0 != entries[i].0) ==>
            entries[i].0 in schedule && schedule[entries[i].0] == entries[i].1)
  }

  /** Whatever stands before a lone equals sign is a known key, when the tag is cut at blanks and
      then at semicolons. */
  ghost predicate KeysKnown(tag: string) {
    forall words, word, parts, part, key, value ::
      Cut(tag, words, ' ') && word in words && Cut(word, parts, ';') && part in parts &&
      KeyedWritten(part, key, value) ==>
        key == "on" || key == "off" || key == "tz"
  }

  /** The default zone stands in for one that is missing or blank. */
  function WithZone(meant: Parsed, zone: string): Parsed {
    if "tz" in meant && meant["tz"] != Zone("") then meant else meant["tz" := Zone(zone)]
  }

  /** All of it: the pieces, an entry for each, the last of a key, and the default zone. */
  ghost predicate ScheduleWritten(tag: string, zone: string, schedule: Parsed) {
    KeysKnown(tag) &&
    exists pieces, entries, meant :: Reading(tag, pieces, entries, meant) && schedule == WithZone(meant, zone)
  }

  ghost predicate Reading(tag: string, pieces: seq<string>, entries: seq<(string, Entry)>, meant: Parsed) {
    Cut(tag, pieces, ';') && EntriesWritten(pieces, entries) && LastWins(entries, meant)
  }

  ghost predicate EntriesWritten(pieces: seq<string>, entries: seq<(string, Entry)>) {
    |pieces| == |entries| && forall i | 0 <= i < |pieces| :: PieceWritten(pieces[i], entries[i].0, entries[i].1)
  }

  // ----- Hours

  lemma DigitsArePlaces(c: char)
    ensures IsDigit(c) <==> c in "0123456789"
    ensures IsDigit(c) ==> DigitValue(c) == Place(c)
  {}

  lemma {:induction false} DecimalSnoc(s: string, c: char)
    ensures Decimal(s + [c]) == 10 * Decimal(s) + Place(c)
  {
    if s == "" {
      assert s + [c] == [c] && [c][1..] == "";
    } else {
      assert (s + [c])[0] == s[0] && (s + [c])[1..] == s[1..] + [c];
      DecimalSnoc(s[1..], c);
      TenTimes(Place(s[0]), PowerOfTen(|s| - 1));
    }
  }

  lemma TenTimes(a: nat, b: nat)
    ensures a * (10 * b) == 10 * (a * b)
  {}

  lemma {:induction false} ToIntIsDecimal(s: string)
    requires forall i | 0 <= i < |s| :: IsDigit(s[i])
    ensures ToInt(s) == Decimal(s)
  {
    if s != "" {
      var front, last := s[..|s| - 1], s[|s| - 1];
      ToIntIsDecimal(front);
      DecimalSnoc(front, last);
      DigitsArePlaces(last);
      assert s == front + [last];
    }
  }

  lemma HourExact(text: string, hour: nat)
    ensures HourWritten(text, hour) <==> IsNumber(text) && ToInt(text) == hour && hour < 24
  {
    forall i | 0 <= i < |text|
      ensures IsDigit(text[i]) <==> text[i] in "0123456789"
    {
      DigitsArePlaces(text[i]);
    }
    if text != "" && forall c | c in text :: c in "0123456789" {
      assert forall i | 0 <= i < |text| :: text[i] in text;
      ToIntIsDecimal(text);
    }
    if IsNumber(text) {
      ToIntIsDecimal(text);
    }
  }

  // ----- Days

  lemma DayExact(word: string, day: nat)
    ensures DayNumber(word) == Some(day) <==> IsDay(word, day)
    ensures DayNumber(word).Some? <==> DayWord()(word)
  {
    if day < 7 {
      DayTextIsBare(day);
    }
  }

  lemma {:induction false} DayNumbersExact(words: seq<string>)
    ensures NamesDays(words, DayNumbers(words))
  {
    if words != [] {
      var first_, rest := words[0], words[1..];
      DayNumbersExact(rest);
      assert words == [first_] + rest;
      SelectAppend([first_], rest, DayWord());
      SelectUniform([first_], DayWord());
      var d := DayNumber(first_);
      DayExact(first_, if d.Some? then d.value else 0);
    }
  }

  lemma NamesOnce(words: seq<string>, a: seq<nat>, b: seq<nat>)
    requires NamesDays(words, a) && NamesDays(words, b)
    ensures a == b
  {
    var named := Select(words, DayWord());
    forall i | 0 <= i < |a|
      ensures a[i] == b[i]
    {
      DayExact(named[i], a[i]);
      DayExact(named[i], b[i]);
    }
  }

  lemma DaysExact(text: string, days: seq<nat>)
    ensures ExpandDays(text) == Some(days) <==> DaysWritten(text, days)
  {
    forall day: nat
      ensures DayNumber(text) == Some(day) <==> IsDay(text, day)
    {
      DayExact(text, day);
    }
    if DayNumber(text).None? {
      RangeExact(text, days);
    }
  }

  /** The words of a range, and the days it names, are those the text is cut into. */
  lemma RangeWords(text: string, words: seq<string>, first_: nat, last: nat)
    ensures RangeWritten(text, words, first_, last) <==>
              words == Split(text, '-') && DayNumbers(words) == [first_, last]
  {
    DayNumbersExact(words);
    if RangeWritten(text, words, first_, last) {
      SplitJoin(words, '-');
      NamesOnce(words, DayNumbers(words), [first_, last]);
    }
    if words == Split(text, '-') && DayNumbers(words) == [first_, last] {
      JoinSplit(text, '-');
      DayNumbersSmall(words);
      assert DayNumbers(words)[0] == first_ && DayNumbers(words)[1] == last;
    }
  }

  lemma RangeExact(text: string, days: seq<nat>)
    requires DayNumber(text).None?
    ensures ExpandDays(text) == Some(days) <==>
              exists words, first_: nat, last: nat ::
                RangeWritten(text, words, first_, last) && days == Meant(Span(first_, last))
  {
    var words := Split(text, '-');
    var r := DayNumbers(words);
    forall others, a: nat, b: nat
      ensures RangeWritten(text, others, a, b) <==> others == words && r == [a, b]
    {
      RangeWords(text, others, a, b);
    }
    if |r| == 2 {
      RangeIsExpanded(text, words, r[0], r[1]);
    }
  }

  lemma RangeIsExpanded(text: string, words: seq<string>, a: nat, b: nat)
    requires DayNumber(text).None? && words == Split(text, '-') && |DayNumbers(words)| == 2
    requires a == DayNumbers(words)[0] && b == DayNumbers(words)[1]
    ensures RangeWritten(text, words, a, b) && ExpandDays(text) == Some(Meant(Span(a, b)))
  {
    DayNumbersSmall(words);
    SpanIsCyclic(a, b);
    assert DayNumbers(words) == [a, b];
    RangeWords(text, words, a, b);
  }

  // ----- Items

  lemma {:induction false} WithoutIsSelect(s: string, a: char, b: char)
    ensures Without(s, a, b) == Select(s, NoneOf(a, b))
  {
    if s != "" {
      WithoutIsSelect(s[1..], a, b);
      assert s == [s[0]] + s[1..];
      SelectAppend([s[0]], s[1..], NoneOf(a, b));
      SelectUniform([s[0]], NoneOf(a, b));
    }
  }

  lemma PairExact(text: string, days: string, hour: string)
    ensures PairWritten(text, days, hour) <==> Split(Without(text, '(', ')'), ',') == [days, hour]
  {
    WithoutIsSelect(text, '(', ')');
    var x := Without(text, '(', ')');
    if PairWritten(text, days, hour) {
      assert x == days + [','] + hour;
      SplitAt(days, ',', hour);
      SplitAbsent(hour, ',');
    }
    if Split(x, ',') == [days, hour] {
      JoinSplit(x, ',');
      assert days in [days, hour] && hour in [days, hour];
      assert [days, hour][1..] == [hour];
    }
  }

  lemma ItemExact(text: string, item: Item)
    ensures ParseItem(text) == Some(item) <==> ItemWritten(text, item)
  {
    var tokens := Split(Without(text, '(', ')'), ',');
    forall days, hour | PairWritten(text, days, hour)
      ensures tokens == [days, hour]
    {
      PairExact(text, days, hour);
    }
    if |tokens| == 2 {
      assert tokens == [tokens[0], tokens[1]];
      PairExact(text, tokens[0], tokens[1]);
      HourExact(tokens[1], item.hour);
      DaysExact(tokens[0], item.days);
    }
  }

  lemma ItemsWrittenStep(parts: seq<string>, items: seq<Item>)
    requires parts != [] && items != []
    ensures ItemsWritten(parts, items) <==> ItemWritten(parts[0], items[0]) && ItemsWritten(parts[1..], items[1..])
  {
    if ItemWritten(parts[0], items[0]) && ItemsWritten(parts[1..], items[1..]) {
      forall i | 0 <= i < |parts|
        ensures ItemWritten(parts[i], items[i])
      {
        if i > 0 {
          assert parts[i] == parts[1..][i - 1] && items[i] == items[1..][i - 1];
        }
      }
    }
    if ItemsWritten(parts, items) {
      assert forall i | 0 <= i < |parts| - 1 :: parts[1..][i] == parts[i + 1] && items[1..][i] == items[i + 1];
    }
  }

  lemma {:induction false} ItemsExact(parts: seq<string>, items: seq<Item>)
    ensures ParseItems(parts) == Some(items) <==> ItemsWritten(parts, items)
    decreases |parts|
  {
    if parts != [] && items != [] {
      ItemExact(parts[0], items[0]);
      ItemsExact(parts[1..], items[1..]);
      ItemsWrittenStep(parts, items);
      assert items == [items[0]] + items[1..];
    }
  }

  lemma TimesExact(text: string, items: seq<Item>)
    ensures ParseTimes(text) == Some(items) <==> TimesWritten(text, items)
  {
    var x := Without(text, '[', ']');
    var parts := Split2(x, ',', '(');
    WithoutIsSelect(text, '[', ']');
    JoinSplit2(x, ',', '(');
    assert [',', '('] == ",(";
    assert ListWritten(text, parts);
    ItemsExact(parts, items);
    forall others | ListWritten(text, others)
      ensures others == parts
    {
      Split2Join(others, ',', '(');
    }
  }

  // ----- Pieces

  lemma KeyedExact(text: string, key: string, value: string)
    ensures KeyedWritten(text, key, value) <==> Split(text, '=') == [key, value]
  {
    if KeyedWritten(text, key, value) {
      KeyValue(key, value);
    }
    if Split(text, '=') == [key, value] {
      JoinSplit(text, '=');
      assert key in [key, value] && value in [key, value];
      assert [key, value][1..] == [value];
    }
  }

  lemma PieceExact(text: string, key: string, entry: Entry)
    ensures ParsePiece(text) == Some((key, entry)) <==> PieceWritten(text, key, entry)
  {
    var kv := Split(text, '=');
    forall k, v | KeyedWritten(text, k, v)
      ensures kv == [k, v]
    {
      KeyedExact(text, k, v);
    }
    if |kv| == 2 {
      assert kv == [kv[0], kv[1]];
      KeyedExact(text, kv[0], kv[1]);
      if entry.Times? {
        TimesExact(kv[1], entry.items);
      }
      if ParseTimes(kv[1]).Some? {
        TimesExact(kv[1], ParseTimes(kv[1]).value);
      }
    }
  }

  /** Entries put into a schedule one after the other. */
  ghost function PutAll(sofar: Parsed, entries: seq<(string, Entry)>): Parsed
    decreases |entries|
  {
    if entries == [] then sofar else PutAll(sofar[entries[0].0 := entries[0].1], entries[1..])
  }

  lemma {:induction false} PiecesExact(pieces: seq<string>, sofar: Parsed, entries: seq<(string, Entry)>)
    requires EntriesWritten(pieces, entries)
    ensures ParsePieces(pieces, sofar) == Some(PutAll(sofar, entries))
    decreases |pieces|
  {
    if pieces != [] {
      PieceExact(pieces[0], entries[0].0, entries[0].1);
      assert forall i | 0 <= i < |pieces| - 1 :: pieces[1..][i] == pieces[i + 1] && entries[1..][i] == entries[i + 1];
      PiecesExact(pieces[1..], sofar[entries[0].0 := entries[0].1], entries[1..]);
    }
  }

  /** A parse that succeeds reads an entry in every piece. */
  lemma {:induction false} EntriesRead(pieces: seq<string>, sofar: Parsed) returns (entries: seq<(string, Entry)>)
    requires ParsePieces(pieces, sofar).Some?
    ensures EntriesWritten(pieces, entries)
    decreases |pieces|
  {
    entries := [];
    if pieces != [] {
      var e := ParsePiece(pieces[0]).value;
      PieceExact(pieces[0], e.0, e.1);
      var rest := EntriesRead(pieces[1..], sofar[e.0 := e.1]);
      entries := [e] + rest;
      forall i | 0 <= i < |pieces|
        ensures PieceWritten(pieces[i], entries[i].0, entries[i].1)
      {
        if i > 0 {
          assert pieces[i] == pieces[1..][i - 1] && entries[i] == rest[i - 1];
        }
      }
    }
  }

  lemma {:induction false} PutAllAt(sofar: Parsed, entries: seq<(string, Entry)>, k: string)
    ensures k in PutAll(sofar, entries) <==> k in sofar || exists i | 0 <= i < |entries| :: entries[i].0 == k
    ensures k in sofar && (forall i | 0 <= i < |entries| :: entries[i].0 != k) ==>
              k in PutAll(sofar, entries) && PutAll(sofar, entries)[k] == sofar[k]
    decreases |entries|
  {
    if entries != [] {
      var rest := entries[1..];
      PutAllAt(sofar[entries[0].0 := entries[0].1], rest, k);
      assert forall i | 0 < i < |entries| :: entries[i] == rest[i - 1];
      assert forall i | 0 <= i < |rest| :: rest[i] == entries[i + 1];
    }
  }

  lemma {:induction false} PutAllLast(sofar: Parsed, entries: seq<(string, Entry)>, i: nat)
    requires i < |entries| && forall j | i < j < |entries| :: entries[j].0 != entries[i].0
    ensures entries[i].0 in PutAll(sofar, entries) && PutAll(sofar, entries)[entries[i].0] == entries[i].1
    decreases |entries|
  {
    var next, rest := sofar[entries[0].0 := entries[0].1], entries[1..];
    assert forall j | 0 <= j < |rest| :: rest[j] == entries[j + 1];
    if i == 0 {
      PutAllAt(next, rest, entries[0].0);
    } else {
      PutAllLast(next, rest, i - 1);
    }
  }

  lemma PutAllWins(entries: seq<(string, Entry)>)
    ensures LastWins(entries, PutAll(map[], entries))
  {
    forall k: string
      ensures k in PutAll(map[], entries) <==> exists i | 0 <= i < |entries| :: entries[i].0 == k
    {
      PutAllAt(map[], entries, k);
    }
    forall i | 0 <= i < |entries| && forall j | i < j < |entries| :: entries[j].0 != entries[i].0
      ensures entries[i].0 in PutAll(map[], entries) && PutAll(map[], entries)[entries[i].0] == entries[i].1
    {
      PutAllLast(map[], entries, i);
    }
  }

  lemma {:induction false} LastOf(entries: seq<(string, Entry)>, k: string) returns (i: nat)
    requires exists i | 0 <= i < |entries| :: entries[i].0 == k
    ensures i < |entries| && entries[i].0 == k && forall j | i < j < |entries| :: entries[j].0 != k
  {
    i := |entries| - 1;
    while entries[i].0 != k
      decreases i
      invariant i < |entries| && forall j | i < j < |entries| :: entries[j].0 != k
    {
      i := i - 1;
    }
  }

  lemma OneWins(entries: seq<(string, Entry)>, a: Parsed, b: Parsed)
    requires LastWins(entries, a) && LastWins(entries, b)
    ensures a == b
  {
    forall k | k in a
      ensures k in b && a[k] == b[k]
    {
      var i := LastOf(entries, k);
    }
  }

  // ----- Tags

  lemma {:induction false} RawPiecesHas(words: seq<string>, part: string)
    ensures part in RawPieces(words) <==> exists word | word in words :: part in Split(word, ';')
  {
    if words != [] {
      RawPiecesHas(words[1..], part);
      assert words == [words[0]] + words[1..];
      assert RawPieces(words) == Split(words[0], ';') + RawPieces(words[1..]);
      if word :| word in words && part in Split(word, ';') {
        assert word == words[0] || word in words[1..];
      }
      if part in RawPieces(words) && part !in Split(words[0], ';') {
        var word :| word in words[1..] && part in Split(word, ';');
        assert word in words;
      }
    }
  }

  lemma KeysExact(tag: string)
    ensures KeysAreValid(tag) <==> KeysKnown(tag)
  {
    var words := Split(tag, ' ');
    CutExact(tag, words, ' ');
    if KeysAreValid(tag) {
      forall ws, word, parts, part, key, value |
        Cut(tag, ws, ' ') && word in ws && Cut(word, parts, ';') && part in parts && KeyedWritten(part, key, value)
        ensures key == "on" || key == "off" || key == "tz"
      {
        CutExact(tag, ws, ' ');
        CutExact(word, parts, ';');
        RawPiecesHas(words, part);
        KeyedExact(part, key, value);
      }
    }
    if KeysKnown(tag) {
      forall part | part in RawPieces(words) && |Split(part, '=')| == 2
        ensures Split(part, '=')[0] == "on" || Split(part, '=')[0] == "off" || Split(part, '=')[0] == "tz"
      {
        RawPiecesHas(words, part);
        var word :| word in words && part in Split(word, ';');
        var kv := Split(part, '=');
        assert kv == [kv[0], kv[1]];
        KeyedExact(part, kv[0], kv[1]);
        CutExact(word, Split(word, ';'), ';');
      }
    }
  }

  lemma ReadingParses(tag: string, pieces: seq<string>, entries: seq<(string, Entry)>, meant: Parsed)
    requires Reading(tag, pieces, entries, meant)
    ensures ParsePieces(Split(tag, ';'), map[]) == Some(meant)
  {
    CutExact(tag, pieces, ';');
    PiecesExact(pieces, map[], entries);
    PutAllWins(entries);
    OneWins(entries, meant, PutAll(map[], entries));
  }

  lemma ParsedIsReading(tag: string) returns (entries: seq<(string, Entry)>)
    requires ParsePieces(Split(tag, ';'), map[]).Some?
    ensures Reading(tag, Split(tag, ';'), entries, ParsePieces(Split(tag, ';'), map[]).value)
  {
    var pieces := Split(tag, ';');
    CutExact(tag, pieces, ';');
    entries := EntriesRead(pieces, map[]);
    PiecesExact(pieces, map[], entries);
    PutAllWins(entries);
  }

  /** A tag is accepted, and read as a schedule, exactly when it is written as one. */
  lemma ParseIsExact(tag: string, zone: string, schedule: Parsed)
    ensures ParseTag(tag, zone) == Some(schedule) <==> ScheduleWritten(tag, zone, schedule)
  {
    KeysExact(tag);
    var parsed := ParsePieces(Split(tag, ';'), map[]);
    if parsed.Some? {
      var entries := ParsedIsReading(tag);
      assert Reading(tag, Split(tag, ';'), entries, parsed.value);
    }
    forall pieces, entries, meant | Reading(tag, pieces, entries, meant)
      ensures parsed == Some(meant)
    {
      ReadingParses(tag, pieces, entries, meant);
    }
  }

  // ----- What is refused

  /** Text is cut at a separator in one way only, and so on for each level of a tag. */
  lemma OneCut(text: string, parts: seq<string>, others: seq<string>, sep: char)
    requires Cut(text, parts, sep) && Cut(text, others, sep)
    ensures parts == others
  {
    CutExact(text, parts, sep);
    CutExact(text, others, sep);
  }

  lemma OneKeyed(piece: string, key: string, value: string, k: string, v: string)
    requires KeyedWritten(piece, key, value) && KeyedWritten(piece, k, v)
    ensures key == k && value == v
  {
    KeyedExact(piece, key, value);
    KeyedExact(piece, k, v);
    assert [key, value][0] == [k, v][0] && [key, value][1] == [k, v][1];
  }

  lemma OneList(text: string, parts: seq<string>, others: seq<string>)
    requires ListWritten(text, parts) && ListWritten(text, others)
    ensures parts == others
  {
    Split2Join(parts, ',', '(');
    Split2Join(others, ',', '(');
    assert [',', '('] == ",(";
  }

  lemma OnePair(text: string, days: string, hour: string, d: string, h: string)
    requires PairWritten(text, days, hour) && PairWritten(text, d, h)
    ensures days == d && hour == h
  {
    PairExact(text, days, hour);
    PairExact(text, d, h);
    assert [days, hour][0] == [d, h][0] && [days, hour][1] == [d, h][1];
  }

  lemma EveryPieceIsWritten(tag: string, zone: string, pieces: seq<string>, i: nat)
    requires Cut(tag, pieces, ';') && i < |pieces| && ParseTag(tag, zone).Some?
    ensures exists key, entry :: PieceWritten(pieces[i], key, entry)
  {
    var entries := ParsedIsReading(tag);
    OneCut(tag, pieces, Split(tag, ';'), ';');
    assert PieceWritten(pieces[i], entries[i].0, entries[i].1);
  }

  lemma EveryItemIsWritten(piece: string, key: string, value: string, parts: seq<string>, i: nat, k: string,
                           entry: Entry)
    requires KeyedWritten(piece, key, value) && key != "tz" && ListWritten(value, parts) && i < |parts|
    requires PieceWritten(piece, k, entry)
    ensures exists item :: ItemWritten(parts[i], item)
  {
    var v :| KeyedWritten(piece, k, v) &&
      if k == "tz" then entry == Zone(v) else entry.Times? && TimesWritten(v, entry.items);
    OneKeyed(piece, key, value, k, v);
    var others :| ListWritten(v, others) && ItemsWritten(others, entry.items);
    OneList(value, parts, others);
    assert ItemWritten(parts[i], entry.items[i]);
  }

  lemma PartsAreWritten(text: string, days: string, hour: string, item: Item)
    requires PairWritten(text, days, hour) && ItemWritten(text, item)
    ensures HourWritten(hour, item.hour) && DaysWritten(days, item.days)
  {
    var d, h :| PairWritten(text, d, h) && HourWritten(h, item.hour) && DaysWritten(d, item.days);
    OnePair(text, days, hour, d, h);
  }

  lemma DaysNameTwo(days: string, words: seq<string>, meant: seq<nat>)
    requires Cut(days, words, '-') && DaysWritten(days, meant)
    ensures DayWord()(days) || |Select(words, DayWord())| == 2
  {
    if day: nat :| IsDay(days, day) {
      DayExact(days, day);
    } else {
      var others, a: nat, b: nat :| RangeWritten(days, others, a, b) && meant == Meant(Span(a, b));
      OneCut(days, words, others, '-');
    }
  }

  /** Cut at its semicolons, a tag with a piece that is no entry is no schedule. */
  lemma BadPieceIsRefused(tag: string, zone: string, pieces: seq<string>, i: nat)
    requires Cut(tag, pieces, ';') && i < |pieces|
    requires forall key, entry :: !PieceWritten(pieces[i], key, entry)
    ensures ParseTag(tag, zone).None?
  {
    if ParseTag(tag, zone).Some? {
      EveryPieceIsWritten(tag, zone, pieces, i);
    }
  }

  /** A list with an item that is none makes its piece no entry. */
  lemma BadItemIsRefused(piece: string, key: string, value: string, parts: seq<string>, i: nat)
    requires KeyedWritten(piece, key, value) && key != "tz" && ListWritten(value, parts) && i < |parts|
    requires forall item :: !ItemWritten(parts[i], item)
    ensures forall k, entry :: !PieceWritten(piece, k, entry)
  {
    forall k, entry | PieceWritten(piece, k, entry)
      ensures false
    {
      EveryItemIsWritten(piece, key, value, parts, i, k, entry);
    }
  }

  /** An hour of twenty-four or more, or one that is no number, makes an item none. */
  lemma BadHourIsRefused(text: string, days: string, hour: string)
    requires PairWritten(text, days, hour)
    requires hour == "" || (exists c | c in hour :: c !in "0123456789") || Decimal(hour) >= 24
    ensures forall item :: !ItemWritten(text, item)
  {
    forall item | ItemWritten(text, item)
      ensures false
    {
      PartsAreWritten(text, days, hour, item);
    }
  }

  /** So do days that are no single day and name fewer or more than two. */
  lemma BadDaysAreRefused(text: string, days: string, hour: string, words: seq<string>)
    requires PairWritten(text, days, hour) && Cut(days, words, '-')
    requires !DayWord()(days) && |Select(words, DayWord())| != 2
    ensures forall item :: !ItemWritten(text, item)
  {
    forall item | ItemWritten(text, item)
      ensures false
    {
      PartsAreWritten(text, days, hour, item);
      DaysNameTwo(days, words, item.days);
    }
  }

  /** An accepted tag without blanks has no keys but the three. */
  lemma AcceptedKeys(tag: string, zone: string)
    requires ' ' !in tag && ParseTag(tag, zone).Some?
    ensures forall key | key in ParseTag(tag, zone).value :: key == "on" || key == "off" || key == "tz"
  {
    KeysExact(tag);
    var entries := ParsedIsReading(tag);
    var pieces := Split(tag, ';');
    SplitAbsent(tag, ' ');
    CutExact(tag, [tag], ' ');
    CutExact(tag, pieces, ';');
    forall i | 0 <= i < |entries|
      ensures entries[i].0 == "on" || entries[i].0 == "off" || entries[i].0 == "tz"
    {
      assert PieceWritten(pieces[i], entries[i].0, entries[i].1);
      var value :| KeyedWritten(pieces[i], entries[i].0, value);
      assert tag in [tag] && pieces[i] in pieces;
    }
  }
}
