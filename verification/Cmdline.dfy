/** The kernel command line parser (cmdline/parser.go). */
module Cmdline {

  datatype Error =
    | EscapeOutsideQuotes | QuoteInKey | EmptyKey | UnterminatedEscape | UnterminatedQuote

  datatype Result<+T> = Ok(value: T) | Err(error: Error)

  datatype Mode = InKey | InValue | InQuotes

  type Pairs = map<string, string>

  datatype State = State(mode: Mode, inEscape: bool, key: string, value: string, result: Pairs)

  predicate IsBlank(c: char)
  {
    c == ' ' || c == '\t'
  }

  /** unicode.IsSpace */
  predicate IsSpace(c: char)
  {
    || c in {'\t', '\n', '\U{0B}', '\U{0C}', '\r', ' ', '\U{85}', '\U{A0}', '\U{1680}'}
    || '\U{2000}' <= c <= '\U{200A}'
    || c in {'\U{2028}', '\U{2029}', '\U{202F}', '\U{205F}', '\U{3000}'}
  }

  function TrimLeft(s: string): (r: string)
  {
    if s != "" && IsSpace(s[0]) then TrimLeft(s[1..]) else s
  }

  function TrimRight(s: string): (r: string)
  {
    if s != "" && IsSpace(s[|s| - 1]) then TrimRight(s[..|s| - 1]) else s
  }

  /** One character. */
  function Step(s: State, c: char): (r: Result<State>)
  {
    if s.inEscape then
      if !s.mode.InQuotes? then Err(EscapeOutsideQuotes)
      else Ok(s.(value := s.value + [c], inEscape := false))
    else if c == '\\' then
      if !s.mode.InQuotes? then Err(EscapeOutsideQuotes) else Ok(s.(inEscape := true))
    else if c == '"' then
      match s.mode
      case InKey => Err(QuoteInKey)
      case InValue => Ok(s.(mode := InQuotes))
      case InQuotes => Ok(s.(mode := InValue))
    else if c == '=' && s.mode.InKey? then
      if s.key == "" then Err(EmptyKey) else Ok(s.(mode := InValue))
    else if IsBlank(c) && !s.mode.InQuotes? then
      if s.mode.InKey? && s.key != "" then Ok(s.(result := s.result[s.key := ""], key := ""))
      else if s.mode.InValue? then Ok(Fresh(s.result[s.key := s.value]))
      else Ok(s)
    else if s.mode.InKey? then Ok(s.(key := s.key + [c]))
    else Ok(s.(value := s.value + [c]))
  }

  /** Between two items. */
  function Fresh(result: Pairs): (s: State)
  {
    State(InKey, false, "", "", result)
  }

  function Run(s: State, text: string): (r: Result<State>)
    decreases |text|
  {
    if text == "" then Ok(s)
    else
      var next := Step(s, text[0]);
      if next.Err? then next else Run(next.value, text[1..])
  }

  function Finish(s: State): (r: Result<Pairs>)
  {
    if s.inEscape then Err(UnterminatedEscape)
    else if s.mode.InQuotes? then Err(UnterminatedQuote)
    else if s.key == "" then Ok(s.result)
    else Ok(s.result[s.key := if s.mode.InKey? then "" else s.value])
  }

  function ParseText(text: string): (r: Result<Pairs>)
  {
    var s := Run(Fresh(map[]), text);
    if s.Err? then Err(s.error) else Finish(s.value)
  }

  function ParseLine(cmdline: string): (r: Result<Pairs>)
  {
    ParseText(TrimRight(TrimLeft(cmdline)))
  }

  /** The parser as it is written: one loop over the trimmed line. */
  method Parse(cmdline: string) returns (r: Result<Pairs>)
    ensures r == ParseLine(cmdline)
  {
    var result: Pairs := map[];
    var inEscape, currentKey, currentValue, state := false, "", "", InKey;
    var text := TrimRight(TrimLeft(cmdline));
    var i := 0;
    while i < |text|
      invariant 0 <= i <= |text|
      invariant Run(Fresh(map[]), text) == Run(State(state, inEscape, currentKey, currentValue, result), text[i..])
    {
      var c := text[i];
      assert text[i..][1..] == text[i + 1..];
      if inEscape {
        if state != InQuotes { return Err(EscapeOutsideQuotes); }
        currentValue := currentValue + [c];
        inEscape := false;
      } else if c == '\\' {
        if state != InQuotes { return Err(EscapeOutsideQuotes); }
        inEscape := true;
      } else if c == '"' {
        match state {
          case InKey => return Err(QuoteInKey);
          case InValue => state := InQuotes;
          case InQuotes => state := InValue;
        }
      } else if c == '=' && state == InKey {
        if currentKey == "" { return Err(EmptyKey); }
        state := InValue;
      } else if IsBlank(c) && state != InQuotes {
        if state == InKey && currentKey != "" {
          result := result[currentKey := ""];
          currentKey := "";
        } else if state == InValue {
          result := result[currentKey := currentValue];
          currentKey, currentValue, state := "", "", InKey;
        }
      } else if state == InKey {
        currentKey := currentKey + [c];
      } else {
        currentValue := currentValue + [c];
      }
      i := i + 1;
    }
    if inEscape { return Err(UnterminatedEscape); }
    if state == InQuotes { return Err(UnterminatedQuote); }
    if state == InKey && currentKey != "" {
      result := result[currentKey := ""];
    } else if currentKey != "" {
      result := result[currentKey := currentValue];
    }
    return Ok(result);
  }

  // ---------- Writing a command line ----------

  /** A character between quotes, as it is or behind a backslash. */
  datatype Quotable = Bare(c: char) | Escaped(c: char)

  /** A value is written in segments, any of them between quotes. */
  datatype Segment = Plain(text: string) | Quoted(chars: seq<Quotable>)

  datatype Item = Flag(key: string) | Pair(key: string, segments: seq<Segment>)

  predicate Ordinary(c: char)
  {
    c != '"' && c != '\\' && !IsBlank(c)
  }

  predicate CleanKey(k: string)
  {
    k != "" && forall i | 0 <= i < |k| :: Ordinary(k[i]) && k[i] != '='
  }

  /** Outside quotes a value has no blanks, quotes or backslashes, and inside them quotes and
      backslashes are escaped. Anything else may be, too. */
  predicate CleanSegment(segment: Segment)
  {
    match segment
    case Plain(t) => forall i | 0 <= i < |t| :: Ordinary(t[i])
    case Quoted(chars) => CleanChars(chars)
  }

  predicate CleanChars(chars: seq<Quotable>)
  {
    forall i | 0 <= i < |chars| :: chars[i].Bare? ==> chars[i].c != '"' && chars[i].c != '\\'
  }

  predicate CleanSegments(segments: seq<Segment>)
  {
    forall i | 0 <= i < |segments| :: CleanSegment(segments[i])
  }

  predicate CleanItem(item: Item)
  {
    CleanKey(item.key) && (item.Pair? ==> CleanSegments(item.segments))
  }

  predicate CleanItems(items: seq<Item>)
  {
    forall i | 0 <= i < |items| :: CleanItem(items[i])
  }

  function CharText(q: Quotable): (r: string)
  {
    if q.Bare? then [q.c] else ['\\', q.c]
  }

  function CharsText(chars: seq<Quotable>): (r: string)
  {
    if chars == [] then "" else CharsText(chars[..|chars| - 1]) + CharText(chars[|chars| - 1])
  }

  function CharsValue(chars: seq<Quotable>): (v: string)
  {
    if chars == [] then "" else CharsValue(chars[..|chars| - 1]) + [chars[|chars| - 1].c]
  }

  function SegmentText(segment: Segment): (r: string)
  {
    match segment
    case Plain(t) => t
    case Quoted(chars) => "\"" + CharsText(chars) + "\""
  }

  function SegmentsText(segments: seq<Segment>): (r: string)
  {
    if segments == [] then ""
    else SegmentsText(segments[..|segments| - 1]) + SegmentText(segments[|segments| - 1])
  }

  function SegmentValue(segment: Segment): (v: string)
  {
    match segment
    case Plain(t) => t
    case Quoted(chars) => CharsValue(chars)
  }

  function Value(segments: seq<Segment>): (v: string)
  {
    if segments == [] then "" else Value(segments[..|segments| - 1]) + SegmentValue(segments[|segments| - 1])
  }

  /** What follows the key of an item. */
  function Rest(item: Item): (r: string)
    ensures if item.Flag? then r == "" else r != "" && r[0] == '='
  {
    if item.Flag? then "" else "=" + SegmentsText(item.segments)
  }

  function ItemText(item: Item): (r: string)
  {
    item.key + Rest(item)
  }

  function ItemValue(item: Item): (v: string)
  {
    if item.Flag? then "" else Value(item.segments)
  }

  predicate Blanks(s: string)
  {
    forall i | 0 <= i < |s| :: IsBlank(s[i])
  }

  predicate GoodGaps(gaps: seq<string>)
  {
    forall i | 0 <= i < |gaps| :: Blanks(gaps[i]) && gaps[i] != ""
  }

  /** Items with a run of blanks after all but the last. */
  function ItemsText(items: seq<Item>, gaps: seq<string>): (r: string)
    requires |gaps| == |items|
  {
    if items == [] then ""
    else if |items| == 1 then ItemText(items[0])
    else ItemText(items[0]) + (gaps[0] + ItemsText(items[1..], gaps[1..]))
  }

  /** What a list of items means: the last of several with the same key counts. */
  function Meaning(items: seq<Item>, before: Pairs): (m: Pairs)
  {
    if items == [] then before else Meaning(items[1..], before[items[0].key := ItemValue(items[0])])
  }

  // ---------- Reading items ----------

  lemma {:induction false} RunConcat(s: State, a: string, b: string)
    ensures Run(s, a + b) == var r := Run(s, a); if r.Err? then r else Run(r.value, b)
    decreases |a|
  {
    if a == "" {
      assert a + b == b;
    } else {
      assert (a + b)[1..] == a[1..] + b;
      if Step(s, a[0]).Ok? { RunConcat(Step(s, a[0]).value, a[1..], b); }
    }
  }

  lemma RunOne(s: State, c: char)
    ensures Run(s, [c]) == Step(s, c)
  {
    assert [c][1..] == "";
  }

  lemma {:induction false} RunKey(s: State, k: string)
    requires s.mode.InKey? && !s.inEscape
    requires forall i | 0 <= i < |k| :: Ordinary(k[i]) && k[i] != '='
    ensures Run(s, k) == Ok(s.(key := s.key + k))
    decreases |k|
  {
    if k == "" {
      assert s.key + k == s.key;
    } else {
      RunKey(s.(key := s.key + [k[0]]), k[1..]);
      assert s.key + [k[0]] + k[1..] == s.key + k;
    }
  }

  /** Outside quotes a value is read as it stands, equals signs included. */
  lemma {:induction false} RunPlain(s: State, t: string)
    requires s.mode.InValue? && !s.inEscape && CleanSegment(Plain(t))
    ensures Run(s, t) == Ok(s.(value := s.value + t))
    decreases |t|
  {
    if t == "" {
      assert s.value + t == s.value;
    } else {
      RunPlain(s.(value := s.value + [t[0]]), t[1..]);
      assert s.value + [t[0]] + t[1..] == s.value + t;
    }
  }

  lemma RunChar(s: State, q: Quotable)
    requires s.mode.InQuotes? && !s.inEscape && CleanChars([q])
    ensures Run(s, CharText(q)) == Ok(s.(value := s.value + [q.c]))
  {
    assert [q][0] == q;
    if q.Bare? {
      RunOne(s, q.c);
    } else {
      assert ['\\', q.c][1..] == [q.c];
      RunOne(s.(inEscape := true), q.c);
    }
  }

  lemma {:induction false} RunChars(s: State, chars: seq<Quotable>)
    requires s.mode.InQuotes? && !s.inEscape && CleanChars(chars)
    ensures Run(s, CharsText(chars)) == Ok(s.(value := s.value + CharsValue(chars)))
  {
    if chars == [] {
      assert s.value + "" == s.value;
    } else {
      var m := |chars| - 1;
      RunChars(s, chars[..m]);
      RunConcat(s, CharsText(chars[..m]), CharText(chars[m]));
      RunChar(s.(value := s.value + CharsValue(chars[..m])), chars[m]);
      Assoc(s.value, CharsValue(chars[..m]), [chars[m].c]);
    }
  }

  lemma RunSegment(s: State, segment: Segment)
    requires s.mode.InValue? && !s.inEscape && CleanSegment(segment)
    ensures Run(s, SegmentText(segment)) == Ok(s.(value := s.value + SegmentValue(segment)))
  {
    match segment
    case Plain(t) => RunPlain(s, t);
    case Quoted(chars) =>
      var s1 := s.(mode := InQuotes);
      RunOne(s, '"');
      RunConcat(s, "\"", CharsText(chars));
      RunChars(s1, chars);
      RunConcat(s, "\"" + CharsText(chars), "\"");
      RunOne(s1.(value := s.value + CharsValue(chars)), '"');
  }

  lemma {:induction false} RunSegments(s: State, segments: seq<Segment>)
    requires s.mode.InValue? && !s.inEscape && CleanSegments(segments)
    ensures Run(s, SegmentsText(segments)) == Ok(s.(value := s.value + Value(segments)))
  {
    if segments == [] {
      assert s.value + "" == s.value;
    } else {
      var m := |segments| - 1;
      RunSegments(s, segments[..m]);
      RunConcat(s, SegmentsText(segments[..m]), SegmentText(segments[m]));
      RunSegment(s.(value := s.value + Value(segments[..m])), segments[m]);
      Assoc(s.value, Value(segments[..m]), SegmentValue(segments[m]));
    }
  }

  /** After an item: its key is there, and its value. */
  function AfterItem(item: Item, result: Pairs): (s: State)
  {
    State(if item.Flag? then InKey else InValue, false, item.key, ItemValue(item), result)
  }

  lemma RunItem(item: Item, result: Pairs)
    requires CleanItem(item)
    ensures Run(Fresh(result), ItemText(item)) == Ok(AfterItem(item, result))
  {
    var s1 := State(InKey, false, item.key, "", result);
    RunKey(Fresh(result), item.key);
    assert "" + item.key == item.key;
    RunConcat(Fresh(result), item.key, Rest(item));
    if item.Pair? {
      RunOne(s1, '=');
      RunConcat(s1, "=", SegmentsText(item.segments));
      RunSegments(s1.(mode := InValue), item.segments);
      assert "" + Value(item.segments) == Value(item.segments);
    }
  }

  lemma {:induction false} RunBlanks(result: Pairs, gap: string)
    requires Blanks(gap)
    ensures Run(Fresh(result), gap) == Ok(Fresh(result))
  {
    if gap != "" { RunBlanks(result, gap[1..]); }
  }

  lemma RunGap(item: Item, result: Pairs, gap: string)
    requires CleanItem(item) && Blanks(gap) && gap != ""
    ensures Run(AfterItem(item, result), gap) == Ok(Fresh(Meaning([item], result)))
  {
    var result' := result[item.key := ItemValue(item)];
    assert Step(AfterItem(item, result), gap[0]) == Ok(Fresh(result'));
    RunBlanks(result', gap[1..]);
    assert [item][1..] == [];
  }

  lemma {:induction false} RunItems(items: seq<Item>, gaps: seq<string>, result: Pairs)
    requires |gaps| == |items| && GoodGaps(gaps) && CleanItems(items)
    ensures var s := Run(Fresh(result), ItemsText(items, gaps));
            s.Ok? && Finish(s.value) == Ok(Meaning(items, result))
    decreases |items|
  {
    if items != [] {
      var item, text := items[0], ItemText(items[0]);
      RunItem(item, result);
      if |items| > 1 {
        var rest := ItemsText(items[1..], gaps[1..]);
        RunConcat(Fresh(result), text, gaps[0] + rest);
        RunConcat(AfterItem(item, result), gaps[0], rest);
        RunGap(item, result, gaps[0]);
        assert [item][1..] == [];
        RunItems(items[1..], gaps[1..], Meaning([item], result));
      } else {
        assert items[1..] == [];
      }
    }
  }

  // ---------- Trimming ----------

  lemma {:induction false} TrimLeftConcat(a: string, b: string)
    ensures TrimLeft(a + b) == if TrimLeft(a) == "" then TrimLeft(b) else TrimLeft(a) + b
  {
    if a == "" {
      assert a + b == b;
    } else {
      TrimLeftConcat(a[1..], b);
      assert (a + b)[1..] == a[1..] + b;
    }
  }

  lemma {:induction false} TrimRightConcat(a: string, b: string)
    ensures TrimRight(a + b) == if TrimRight(b) == "" then TrimRight(a) else a + TrimRight(b)
    decreases |b|
  {
    if b == "" {
      assert a + b == a;
    } else {
      var m := |b| - 1;
      TrimRightConcat(a, b[..m]);
      assert (a + b)[..|a| + m] == a + b[..m];
    }
  }

  /** Nothing but spaces, in the wider sense of Unicode. */
  predicate Spaces(s: string)
  {
    forall i | 0 <= i < |s| :: IsSpace(s[i])
  }

  lemma {:induction false} SpacesTrimAway(s: string)
    requires Spaces(s)
    ensures TrimLeft(s) == "" && TrimRight(s) == ""
  {
    if s != "" {
      SpacesTrimAway(s[1..]);
      SpacesTrimAway(s[..|s| - 1]);
    }
  }

  /** What trimming the line leaves of its items: a first key loses its leading spaces, and a flag
      of nothing but spaces is lost altogether. */
  function TrimItemsLeft(items: seq<Item>): (r: seq<Item>)
    ensures |r| <= |items|
  {
    if items == [] then []
    else
      var k := TrimLeft(items[0].key);
      if items[0].Flag? && k == "" then TrimItemsLeft(items[1..]) else [items[0].(key := k)] + items[1..]
  }

  /** What trimming leaves of a value at the end of a line. */
  function TrimSegments(segments: seq<Segment>): (r: seq<Segment>)
  {
    if segments == [] || segments[|segments| - 1].Quoted? then segments
    else
      var init, t := segments[..|segments| - 1], TrimRight(segments[|segments| - 1].text);
      if t == "" then TrimSegments(init) else init + [Plain(t)]
  }

  function TrimItem(item: Item): (r: Item)
  {
    if item.Flag? then Flag(TrimRight(item.key)) else Pair(item.key, TrimSegments(item.segments))
  }

  /** Likewise at the end, where a value that is not quoted loses its spaces, too. */
  function TrimItemsRight(items: seq<Item>): (r: seq<Item>)
    ensures |r| <= |items|
  {
    if items == [] then []
    else
      var init, last := items[..|items| - 1], TrimItem(items[|items| - 1]);
      if last == Flag("") then TrimItemsRight(init) else init + [last]
  }

  lemma Assoc(a: string, b: string, c: string)
    ensures a + b + c == a + (b + c)
  {
  }

  lemma Assoc4(a: string, b: string, c: string, d: string)
    ensures a + b + c + d == a + (b + c + d)
  {
    Assoc(a, b, c);
    Assoc(a, b + c, d);
  }

  /** What follows the first item. */
  function After(items: seq<Item>, gaps: seq<string>): (r: string)
    requires |gaps| == |items| > 0
  {
    if |items| == 1 then "" else gaps[0] + ItemsText(items[1..], gaps[1..])
  }

  lemma ItemsTextHead(items: seq<Item>, gaps: seq<string>)
    requires |gaps| == |items| > 0
    ensures ItemsText(items, gaps) == items[0].key + Rest(items[0]) + After(items, gaps)
  {
    Assoc(items[0].key, Rest(items[0]), After(items, gaps));
    if |items| == 1 { assert ItemText(items[0]) + "" == ItemText(items[0]); }
  }

  lemma HeadReplaced(items: seq<Item>, gaps: seq<string>, k: string)
    requires |gaps| == |items| > 0
    ensures ItemsText([items[0].(key := k)] + items[1..], gaps) ==
            k + Rest(items[0]) + After(items, gaps)
  {
    var replaced := [items[0].(key := k)] + items[1..];
    assert replaced[1..] == items[1..];
    ItemsTextHead(replaced, gaps);
  }

  lemma TrimLeftNonSpace(s: string)
    requires s != "" && !IsSpace(s[0])
    ensures TrimLeft(s) == s
  {
  }

  /** Trimming text that starts with a key, on strings: the key loses its spaces; a key that is
      lost lets trimming go on. */
  lemma TrimLeftKey(key: string, rest: string, after: string, trail: string)
    ensures var k, text := TrimLeft(key), key + rest + after + trail;
            && (k != "" ==> TrimLeft(text) == k + rest + after + trail)
            && (k == "" && rest != "" && !IsSpace(rest[0]) ==> TrimLeft(text) == "" + rest + after + trail)
            && (k == "" && rest == "" ==> TrimLeft(text) == TrimLeft(after + trail))
  {
    var k, tail := TrimLeft(key), rest + after + trail;
    Assoc4(key, rest, after, trail);
    Assoc4(k, rest, after, trail);
    TrimLeftConcat(key, tail);
    if k == "" && rest != "" && !IsSpace(rest[0]) {
      TrimLeftNonSpace(tail);
      assert "" + rest == rest;
    }
    if rest == "" { assert rest + after == after; }
  }

  lemma TrimLeftGap(gap: string, more: string, trail: string)
    requires Spaces(gap)
    ensures TrimLeft(gap + more + trail) == TrimLeft(more + trail)
  {
    SpacesTrimAway(gap);
    Assoc(gap, more, trail);
    TrimLeftConcat(gap, more + trail);
  }

  /** Trimming a list as far as its first item goes. */
  lemma TrimLeftItem(items: seq<Item>, gaps: seq<string>, trail: string)
    requires |gaps| == |items| > 0 && GoodGaps(gaps) && Spaces(trail)
    ensures var k, text := TrimLeft(items[0].key), TrimLeft(ItemsText(items, gaps) + trail);
            if items[0].Pair? || k != "" then text == ItemsText([items[0].(key := k)] + items[1..], gaps) + trail
            else if |items| == 1 then text == ""
            else text == TrimLeft(ItemsText(items[1..], gaps[1..]) + trail)
  {
    var k := TrimLeft(items[0].key);
    ItemsTextHead(items, gaps);
    TrimLeftKey(items[0].key, Rest(items[0]), After(items, gaps), trail);
    if items[0].Pair? || k != "" {
      HeadReplaced(items, gaps, k);
    } else if |items| == 1 {
      SpacesTrimAway(trail);
      assert "" + trail == trail;
    } else {
      TrimLeftGap(gaps[0], ItemsText(items[1..], gaps[1..]), trail);
    }
  }

  /** What follows the items that are lost at the start. */
  function GapsLeft(items: seq<Item>, gaps: seq<string>): (r: seq<string>)
    requires |gaps| == |items|
    ensures |r| == |TrimItemsLeft(items)|
  {
    gaps[|items| - |TrimItemsLeft(items)|..]
  }

  /** Text that is trimmed away, or kept with what trails it. */
  function Left(left: seq<Item>, gaps: seq<string>, trail: string): (r: string)
    requires |gaps| == |left|
  {
    if left == [] then "" else ItemsText(left, gaps) + trail
  }

  lemma {:induction false} TrimLeftItems(items: seq<Item>, gaps: seq<string>, trail: string)
    requires |gaps| == |items| && GoodGaps(gaps) && Spaces(trail)
    ensures TrimLeft(ItemsText(items, gaps) + trail) == Left(TrimItemsLeft(items), GapsLeft(items, gaps), trail)
    decreases |items|
  {
    if items == [] {
      SpacesTrimAway(trail);
      assert "" + trail == trail;
    } else {
      TrimLeftItem(items, gaps, trail);
      if items[0].Pair? || TrimLeft(items[0].key) != "" {
        assert GapsLeft(items, gaps) == gaps;
      } else if |items| == 1 {
        assert items[1..] == [];
      } else {
        TrimLeftItems(items[1..], gaps[1..], trail);
        assert GapsLeft(items, gaps) == GapsLeft(items[1..], gaps[1..]);
      }
    }
  }

  /** What comes before the last item. */
  function Front(items: seq<Item>, gaps: seq<string>): (r: string)
    requires |gaps| == |items|
  {
    if items == [] then "" else ItemsText(items, gaps) + gaps[|items| - 1]
  }

  lemma FrontCons(items: seq<Item>, gaps: seq<string>)
    requires |gaps| == |items| > 0
    ensures Front(items, gaps) == ItemText(items[0]) + gaps[0] + Front(items[1..], gaps[1..])
  {
    var a, g := ItemText(items[0]), gaps[0];
    if |items| > 1 {
      var more := ItemsText(items[1..], gaps[1..]);
      assert Front(items[1..], gaps[1..]) == more + gaps[|items| - 1];
      Assoc(a, g, more);
      Assoc(a + g, more, gaps[|items| - 1]);
    }
  }

  /** The text of a list ends with the text of its last item. */
  lemma {:induction false} ItemsTextSnoc(items: seq<Item>, gaps: seq<string>, item: Item, gap: string)
    requires |gaps| == |items|
    ensures ItemsText(items + [item], gaps + [gap]) == Front(items, gaps) + ItemText(item)
  {
    var all, last := items + [item], ItemText(item);
    if items == [] {
      assert all == [item] && "" + last == last;
    } else {
      assert all[1..] == items[1..] + [item] && (gaps + [gap])[1..] == gaps[1..] + [gap];
      ItemsTextSnoc(items[1..], gaps[1..], item, gap);
      FrontCons(items, gaps);
      var a, g, front := ItemText(items[0]), gaps[0], Front(items[1..], gaps[1..]);
      Assoc4(a, g, front, last);
      Assoc(g, front, last);
    }
  }

  lemma {:induction false} TrimRightSegments(segments: seq<Segment>)
    ensures TrimRight("=" + SegmentsText(segments)) == "=" + SegmentsText(TrimSegments(segments))
  {
    if segments != [] {
      var init, last := segments[..|segments| - 1], segments[|segments| - 1];
      var text := SegmentText(last);
      Assoc("=", SegmentsText(init), text);
      TrimRightConcat("=" + SegmentsText(init), text);
      if last.Quoted? {
        assert text[|text| - 1] == '"';
      } else {
        TrimRightSegments(init);
        var t := TrimRight(last.text);
        assert (init + [Plain(t)])[..|init|] == init;
        Assoc("=", SegmentsText(init), t);
      }
    }
  }

  lemma ItemTextTrimRight(item: Item, trail: string)
    requires Spaces(trail)
    ensures TrimRight(ItemText(item) + trail) == ItemText(TrimItem(item))
    ensures item.Pair? ==> ItemText(TrimItem(item)) != ""
  {
    SpacesTrimAway(trail);
    TrimRightConcat(ItemText(item), trail);
    if item.Pair? {
      TrimRightSegments(item.segments);
      TrimRightConcat(item.key, Rest(item));
    } else {
      assert item.key + "" == item.key && TrimRight(item.key) + "" == TrimRight(item.key);
    }
  }

  lemma TrimRightLast(front: string, text: string, trail: string)
    ensures TrimRight(front + text + trail) ==
            if TrimRight(text + trail) == "" then TrimRight(front) else front + TrimRight(text + trail)
  {
    Assoc(front, text, trail);
    TrimRightConcat(front, text + trail);
  }

  /** Trimming a list as far as its last item goes. */
  lemma TrimRightItem(items: seq<Item>, gaps: seq<string>, trail: string)
    requires |gaps| == |items| > 0 && Spaces(trail)
    ensures var m := |items| - 1;
            TrimRight(ItemsText(items, gaps) + trail) ==
            if TrimItem(items[m]) == Flag("") then TrimRight(Front(items[..m], gaps[..m]))
            else ItemsText(items[..m] + [TrimItem(items[m])], gaps)
  {
    var m := |items| - 1;
    var init, last, gaps', gap := items[..m], items[m], gaps[..m], gaps[m];
    assert items == init + [last] && gaps == gaps' + [gap];
    ItemsTextSnoc(init, gaps', last, gap);
    ItemTextTrimRight(last, trail);
    TrimRightLast(Front(init, gaps'), ItemText(last), trail);
    ItemsTextSnoc(init, gaps', TrimItem(last), gap);
  }

  lemma {:induction false} TrimRightItems(items: seq<Item>, gaps: seq<string>, trail: string)
    requires |gaps| == |items| && GoodGaps(gaps) && Spaces(trail)
    ensures var right := TrimItemsRight(items);
            TrimRight(ItemsText(items, gaps) + trail) == ItemsText(right, gaps[..|right|])
    decreases |items|
  {
    if items == [] {
      SpacesTrimAway(trail);
      assert "" + trail == trail;
    } else {
      var m := |items| - 1;
      TrimRightItem(items, gaps, trail);
      if TrimItem(items[m]) != Flag("") {
        assert gaps[..|items|] == gaps;
      } else if m > 0 {
        TrimRightItems(items[..m], gaps[..m], gaps[m - 1]);
        var right := TrimItemsRight(items[..m]);
        assert gaps[..m][..|right|] == gaps[..|right|];
      }
    }
  }

  // ---------- Parsing what was written ----------

  lemma {:induction false} TrimmedClean(k: string)
    requires k == "" || CleanKey(k)
    ensures TrimLeft(k) == "" || CleanKey(TrimLeft(k))
    ensures TrimRight(k) == "" || CleanKey(TrimRight(k))
  {
    if k != "" {
      TrimmedClean(k[1..]);
      TrimmedClean(k[..|k| - 1]);
    }
  }

  /** Only the key of a first pair can be lost with the pair still there. */
  predicate LeftOver(left: seq<Item>)
  {
    left == [] || (CleanItems(left[1..]) && (CleanItem(left[0]) || Broken(left)))
  }

  predicate Broken(items: seq<Item>)
  {
    items != [] && items[0].Pair? && items[0].key == ""
  }

  lemma {:induction false} LeftClean(items: seq<Item>)
    requires CleanItems(items)
    ensures LeftOver(TrimItemsLeft(items))
  {
    if items != [] {
      assert CleanItem(items[0]);
      TrimmedClean(items[0].key);
      LeftClean(items[1..]);
      assert CleanItems(items[1..]);
    }
  }

  lemma {:induction false} SegmentsClean(segments: seq<Segment>)
    requires CleanSegments(segments)
    ensures CleanSegments(TrimSegments(segments))
  {
    if segments != [] && segments[|segments| - 1].Plain? {
      assert CleanSegment(segments[|segments| - 1]);
      OrdinaryTrimmed(segments[|segments| - 1].text);
      SegmentsClean(segments[..|segments| - 1]);
    }
  }

  lemma {:induction false} OrdinaryTrimmed(t: string)
    requires CleanSegment(Plain(t))
    ensures CleanSegment(Plain(TrimRight(t)))
  {
    if t != "" { OrdinaryTrimmed(t[..|t| - 1]); }
  }

  lemma {:induction false} RightClean(items: seq<Item>)
    requires CleanItems(items)
    ensures CleanItems(TrimItemsRight(items))
  {
    if items != [] {
      var last := items[|items| - 1];
      assert CleanItem(last);
      if last.Pair? { SegmentsClean(last.segments); } else { TrimmedClean(last.key); }
      RightClean(items[..|items| - 1]);
    }
  }

  lemma {:induction false} RightKeepsBroken(items: seq<Item>)
    requires Broken(items)
    ensures Broken(TrimItemsRight(items))
  {
    if |items| > 1 { RightKeepsBroken(items[..|items| - 1]); }
  }

  /** The items that are left of a written line. */
  function Trimmed(items: seq<Item>): (r: seq<Item>)
  {
    TrimItemsRight(TrimItemsLeft(items))
  }

  lemma TrimWritten(items: seq<Item>, gaps: seq<string>, trail: string)
    requires |gaps| == |items| && GoodGaps(gaps) && Spaces(trail)
    ensures var right := Trimmed(items);
            TrimRight(TrimLeft(ItemsText(items, gaps) + trail)) == ItemsText(right, GapsLeft(items, gaps)[..|right|])
  {
    TrimLeftItems(items, gaps, trail);
    var left := TrimItemsLeft(items);
    if left != [] { TrimRightItems(left, GapsLeft(items, gaps), trail); }
  }

  lemma TrimLine(items: seq<Item>, gaps: seq<string>, lead: string, trail: string)
    requires |gaps| == |items| && GoodGaps(gaps) && Spaces(lead) && Spaces(trail)
    ensures var right := Trimmed(items);
            ParseLine(lead + ItemsText(items, gaps) + trail) ==
            ParseText(ItemsText(right, GapsLeft(items, gaps)[..|right|]))
  {
    TrimLeftGap(lead, ItemsText(items, gaps), trail);
    TrimWritten(items, gaps, trail);
  }

  lemma EqualsFirst(items: seq<Item>, gaps: seq<string>)
    requires |gaps| == |items| && Broken(items)
    ensures ParseText(ItemsText(items, gaps)) == Err(EmptyKey)
  {
    ItemsTextHead(items, gaps);
    assert ItemsText(items, gaps)[0] == '=';
  }

  lemma ReadBack(left: seq<Item>, gaps: seq<string>)
    requires |gaps| == |left| && GoodGaps(gaps) && CleanItems(left)
    ensures var right := TrimItemsRight(left);
            !Broken(right) && ParseText(ItemsText(right, gaps[..|right|])) == Ok(Meaning(right, map[]))
  {
    RightClean(left);
    var right := TrimItemsRight(left);
    RunItems(right, gaps[..|right|], map[]);
    if right != [] { assert CleanItem(right[0]); }
  }

  lemma AllClean(left: seq<Item>)
    requires LeftOver(left) && !Broken(left)
    ensures CleanItems(left)
  {
    forall i | 0 <= i < |left| ensures CleanItem(left[i]) {
      if i > 0 { assert left[i] == left[1..][i - 1]; }
    }
  }

  /** Reading items of which the start has been trimmed and the end is. */
  lemma ReadTrimmed(left: seq<Item>, gaps: seq<string>)
    requires |gaps| == |left| && GoodGaps(gaps) && LeftOver(left)
    ensures var right := TrimItemsRight(left);
            ParseText(ItemsText(right, gaps[..|right|])) ==
            if Broken(right) then Err(EmptyKey) else Ok(Meaning(right, map[]))
  {
    if Broken(left) {
      RightKeepsBroken(left);
      EqualsFirst(TrimItemsRight(left), gaps[..|TrimItemsRight(left)|]);
    } else {
      AllClean(left);
      ReadBack(left, gaps);
    }
  }

  /** The line is written as these items, with runs of blanks between them and spaces around them. */
  predicate Writes(line: string, items: seq<Item>, gaps: seq<string>, lead: string, trail: string)
  {
    && |gaps| == |items| && GoodGaps(gaps) && Spaces(lead) && Spaces(trail) && CleanItems(items)
    && line == lead + ItemsText(items, gaps) + trail
  }

  /** Parsing inverts writing: flags and pairs with clean keys and any values, plain, quoted and
      escaped in any mixture, with any runs of blanks between them and any spaces around them, parse
      to exactly what they mean once the line is trimmed. A pair whose key is trimmed away
      altogether is an error. */
  lemma ParseInvertsWriting(line: string, items: seq<Item>, gaps: seq<string>, lead: string, trail: string)
    requires Writes(line, items, gaps, lead, trail)
    ensures ParseLine(line) ==
            if Broken(Trimmed(items)) then Err(EmptyKey) else Ok(Meaning(Trimmed(items), map[]))
  {
    TrimLine(items, gaps, lead, trail);
    LeftClean(items);
    ReadTrimmed(TrimItemsLeft(items), GapsLeft(items, gaps));
  }

  /** A key that can be put first on a line. */
  predicate CanLead(k: string)
  {
    k != "" && !IsSpace(k[0])
  }

  lemma NothingTrimmedLeft(items: seq<Item>)
    requires items != [] && CanLead(items[0].key)
    ensures TrimItemsLeft(items) == items
  {
    TrimLeftNonSpace(items[0].key);
    assert [items[0]] + items[1..] == items;
  }

  /** A last item that does not end with a space. */
  predicate EndsOrdinary(item: Item)
  {
    match item
    case Flag(k) => k != "" && !IsSpace(k[|k| - 1])
    case Pair(_, segments) =>
      segments == [] || match segments[|segments| - 1]
                        case Plain(t) => t != "" && !IsSpace(t[|t| - 1])
                        case Quoted(_) => true
  }

  lemma LastNotTrimmed(item: Item)
    requires EndsOrdinary(item)
    ensures TrimItem(item) == item && item != Flag("")
  {
    if item.Pair? && item.segments != [] {
      var init, last := item.segments[..|item.segments| - 1], item.segments[|item.segments| - 1];
      assert item.segments == init + [last];
    }
  }

  lemma NothingTrimmedRight(items: seq<Item>)
    requires items != [] && EndsOrdinary(items[|items| - 1])
    ensures TrimItemsRight(items) == items
  {
    var init, last := items[..|items| - 1], items[|items| - 1];
    assert items == init + [last];
    LastNotTrimmed(last);
  }

  /** Trimming leaves items alone unless the first key starts or the last item ends with a space:
      what was written is read back. */
  lemma NothingTrimmed(items: seq<Item>)
    requires items != [] ==> CanLead(items[0].key) && EndsOrdinary(items[|items| - 1])
    ensures Trimmed(items) == items
  {
    if items != [] {
      NothingTrimmedLeft(items);
      NothingTrimmedRight(items);
    }
  }
}
