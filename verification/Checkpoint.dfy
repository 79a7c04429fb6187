/** Saving and loading replication progress as text.
    Models the printer and parser of Enterprise/Replication/ReplicationCheckpoint.cpp and the
    tracker state they carry, Enterprise/Replication/SequenceNumberTracker.cpp. The file is a
    string, or absent. */
module Checkpoint {
  import opened Words
  import opened Text

  type State = map<string, U64>

  datatype LoadError = MissingShards | MalformedShards | UnterminatedString
                     | NonNumeric(shard: string) | InvalidNumber(shard: string)

  datatype Parse = Ok(state: State) | Err(error: LoadError)

  // ---------- the text ----------

  const OPENING := "{\n  "
  const VERSION := "version"
  const ONE := "\": 1,\n  "
  const SHARDS := "\"shards\""
  const BRACE := ": {"
  const INDENT := "\n    "
  const COLON := "\": "
  const TAIL := "\n  }\n}\n"

  datatype Shard = Shard(id: string, sequence: U64)

  function Separator(first: bool): string {
    if first then INDENT else "," + INDENT
  }

  /** One line of the shards object, before the rest of the text. */
  function Line(first: bool, s: Shard, rest: string): string {
    Separator(first) + (['"'] + (s.id + (COLON + (Digits(s.sequence) + rest))))
  }

  function Lines(first: bool, order: seq<Shard>): string {
    if order == [] then TAIL else Line(first, order[0], Lines(false, order[1..]))
  }

  /** The text saved when the map iterates in the given order. */
  function SavedText(order: seq<Shard>): string {
    OPENING + ("\"" + (VERSION + (ONE + (SHARDS + (BRACE + Lines(true, order))))))
  }

  lemma HeadIs()
    ensures OPENING + ("\"" + (VERSION + (ONE + (SHARDS + BRACE)))) == "{\n  \"version\": 1,\n  \"shards\": {"
  {
  }

  lemma HeadFirst(rest: string)
    ensures OPENING + ("\"" + (VERSION + (ONE + (SHARDS + BRACE)))) + rest ==
            OPENING + ("\"" + (VERSION + (ONE + (SHARDS + (BRACE + rest)))))
  {
    PushIn(SHARDS, BRACE, rest);
    PushIn(ONE, SHARDS + BRACE, rest);
    PushIn(VERSION, ONE + (SHARDS + BRACE), rest);
    PushIn("\"", VERSION + (ONE + (SHARDS + BRACE)), rest);
    PushIn(OPENING, "\"" + (VERSION + (ONE + (SHARDS + BRACE))), rest);
  }

  /** The text, character by character. */
  lemma TextIs(order: seq<Shard>)
    ensures SavedText(order) == "{\n  \"version\": 1,\n  \"shards\": {" + Lines(true, order)
    ensures forall first: bool :: Lines(first, []) == "\n  }\n}\n"
  {
    HeadFirst(Lines(true, order));
    HeadIs();
  }

  lemma Appended(text: string, sep: string, id: string, colon: string, digits: string, rest: string)
    ensures text + (sep + (['"'] + (id + (colon + (digits + rest))))) == text + sep + ['"'] + id + colon + digits + rest
  {
    PushIn(text, sep, ['"'] + (id + (colon + (digits + rest))));
    PushIn(text + sep, ['"'], id + (colon + (digits + rest)));
    PushIn(text + sep + ['"'], id, colon + (digits + rest));
    PushIn(text + sep + ['"'] + id, colon, digits + rest);
    PushIn(text + sep + ['"'] + id + colon, digits, rest);
  }

  lemma LineReads(first: bool, s: Shard, rest: string)
    ensures Line(first, s, rest) == Separator(first) + ['"'] + s.id + "\": " + Digits(s.sequence) + rest
  {
    hide Separator;
    Appended([], Separator(first), s.id, COLON, Digits(s.sequence), rest);
    assert [] + Separator(first) == Separator(first);
    assert [] + Line(first, s, rest) == Line(first, s, rest);
  }

  lemma OpeningIs(first: bool)
    ensures Separator(first) + ['"'] == if first then "\n    \"" else ",\n    \""
  {
  }

  lemma LineIs(first: bool, order: seq<Shard>)
    requires order != []
    ensures Lines(first, order) ==
            (if first then "\n    \"" else ",\n    \"") + order[0].id + "\": " + Digits(order[0].sequence)
            + Lines(false, order[1..])
  {
    var rest := Lines(false, order[1..]);
    LineReads(first, order[0], rest);
    OpeningIs(first);
  }

  method AppendLine(text: string, first: bool, s: Shard, ghost rest: string) returns (r: string)
    ensures r + rest == text + Line(first, s, rest)
  {
    Appended(text, Separator(first), s.id, COLON, Digits(s.sequence), rest);
    r := text;
    if first {
      r := r + INDENT;
    } else {
      r := r + ("," + INDENT);
    }
    r := r + ['"'] + s.id + COLON + Digits(s.sequence);
  }

  method Save(order: seq<Shard>) returns (text: string)
    ensures text == SavedText(order)
  {
    text := OPENING + ("\"" + (VERSION + (ONE + (SHARDS + BRACE))));
    HeadFirst(Lines(true, order));
    var first := true;
    assert order[0..] == order;
    for i := 0 to |order|
      invariant first == (i == 0)
      invariant text + Lines(first, order[i..]) == SavedText(order)
    {
      assert order[i..][0] == order[i] && order[i..][1..] == order[i + 1..];
      text := AppendLine(text, first, order[i], Lines(false, order[i + 1..]));
      first := false;
    }
    assert order[|order|..] == [];
    text := text + TAIL;
  }

  // ---------- the parser ----------

  predicate IsSpace(c: char) {
    c == ' ' || c == '\n' || c == '\r' || c == '\t'
  }

  function SkipSpace(s: string, i: nat): (j: nat)
    requires i <= |s|
    ensures i <= j <= |s|
    decreases |s| - i
  {
    if i == |s| || !IsSpace(s[i]) then i else SkipSpace(s, i + 1)
  }

  /** One key and number with the position behind it, or the reason to stop. */
  datatype Entry = Entry(id: string, sequence: U64, next: nat) | End | Bad(error: LoadError)

  /** The number of a key whose closing quote is at `close`. */
  function ParseNumber(s: string, key: string, close: nat): (e: Entry)
    requires close < |s|
    ensures e.Entry? ==> close < e.next <= |s|
  {
    var colon, brace := Find(s, ':', close), Find(s, '}', close);
    if colon == |s| || (brace < |s| && brace < colon) then End else
      var start := SkipSpace(s, colon + 1);
      var end := DigitEnd(s, start);
      if end == start then Bad(NonNumeric(key)) else
        match StoULL(s[start..end])
        case OutOfRange => Bad(InvalidNumber(key))
        case Parsed(sequence) => Entry(key, sequence, end)
  }

  /** The quotes of the next key, then its number. */
  function ParseEntry(s: string, pos: nat): (e: Entry)
    requires pos <= |s|
    ensures e.Entry? ==> pos < e.next <= |s|
  {
    var open := Find(s, '"', pos);
    if open == |s| then End else
      var close := Find(s, '"', open + 1);
      if close == |s| then Bad(UnterminatedString) else ParseNumber(s, s[open + 1..close], close)
  }

  function ParseEntries(s: string, pos: nat, state: State): Parse
    requires pos <= |s|
    decreases |s| - pos
  {
    match ParseEntry(s, pos)
    case End => Ok(state)
    case Bad(error) => Err(error)
    case Entry(id, sequence, next) => ParseEntries(s, next, state[id := sequence])
  }

  function ParseText(s: string): Parse {
    var shards := FindWord(s, SHARDS, 0);
    if shards == |s| then Err(MissingShards) else
      var brace := Find(s, '{', shards);
      if brace == |s| then Err(MalformedShards) else ParseEntries(s, brace + 1, map[])
  }

  // ---------- what the parser answers, on any text ----------

  /** No quote means no further entry, and a quote without a partner is an error. */
  lemma KeyIsMissing(s: string, pos: nat, open: nat)
    requires pos <= |s| && First(s, '"', pos, open)
    ensures open == |s| ==> ParseEntry(s, pos) == End
    ensures open < |s| && '"' !in s[open + 1..] ==> ParseEntry(s, pos) == Bad(UnterminatedString)
  {
    FirstIsFound(s, '"', pos, open);
    if open < |s| && '"' !in s[open + 1..] {
      assert s[open + 1..|s|] == s[open + 1..];
      FirstIsFound(s, '"', open + 1, |s|);
    }
  }

  /** A key is what stands between the first two quotes. */
  lemma KeyIs(s: string, pos: nat, open: nat, close: nat)
    requires pos <= |s| && First(s, '"', pos, open) && open < |s| && First(s, '"', open + 1, close) && close < |s|
    ensures ParseEntry(s, pos) == ParseNumber(s, s[open + 1..close], close)
  {
    FirstIsFound(s, '"', pos, open);
    FirstIsFound(s, '"', open + 1, close);
  }

  /** Behind a key, no colon or a brace before it ends the entries. */
  lemma ColonIsMissing(s: string, key: string, close: nat, colon: nat)
    requires close < |s| && First(s, ':', close, colon)
    requires colon == |s| || '}' in s[close..colon]
    ensures ParseNumber(s, key, close) == End
  {
    FirstIsFound(s, ':', close, colon);
    if colon < |s| {
      var k :| 0 <= k < colon - close && s[close..colon][k] == '}';
      FoundBy(s, '}', close, close + k);
    }
  }

  predicate AllSpaces(s: string) {
    forall i :: 0 <= i < |s| ==> s[i] in " \n\r\t"
  }

  lemma {:induction false} SpacesEnd(s: string, i: nat, start: nat)
    requires i <= start <= |s| && AllSpaces(s[i..start]) && (start < |s| ==> s[start] !in " \n\r\t")
    ensures SkipSpace(s, i) == start
    decreases start - i
  {
    if i < start {
      assert s[i] == s[i..start][0];
      assert s[i + 1..start] == s[i..start][1..];
      SpacesEnd(s, i + 1, start);
    }
  }

  lemma NumberOf(s: string, key: string, close: nat, colon: nat, start: nat, end: nat)
    requires close < |s| && Find(s, ':', close) == colon < |s| && Find(s, '}', close) > colon
    requires SkipSpace(s, colon + 1) == start && DigitEnd(s, start) == end
    ensures ParseNumber(s, key, close) ==
            if start == end then Bad(NonNumeric(key))
            else if Value(s[start..end]) < 0x1_0000_0000_0000_0000 then Entry(key, Value(s[start..end]), end)
            else Bad(InvalidNumber(key))
  {
    hide Find, SkipSpace, DigitEnd, Value;
  }

  lemma ColonIsFirst(s: string, close: nat, colon: nat)
    requires close <= colon < |s| && '}' !in s[close..colon] && First(s, ':', close, colon)
    ensures Find(s, '}', close) > colon
  {
    assert s[close..colon + 1] == s[close..colon] + [':'];
    NotFoundBefore(s, '}', close, colon + 1);
  }

  /** Behind the colon and its spaces: digits that fit 64 bits are the sequence, digits that do not are
      an error, and so is anything that is no digit. */
  lemma NumberIs(s: string, key: string, close: nat, colon: nat, start: nat, end: nat)
    requires close < |s| && First(s, ':', close, colon) && colon < |s| && '}' !in s[close..colon]
    requires colon + 1 <= start <= end <= |s|
    requires AllSpaces(s[colon + 1..start]) && (start < |s| ==> s[start] !in " \n\r\t")
    requires AllDigits(s[start..end]) && (end < |s| ==> !('0' <= s[end] <= '9'))
    ensures ParseNumber(s, key, close) ==
            if start == end then Bad(NonNumeric(key))
            else if Value(s[start..end]) < 0x1_0000_0000_0000_0000 then Entry(key, Value(s[start..end]), end)
            else Bad(InvalidNumber(key))
  {
    hide Find, SkipSpace, DigitEnd, First, AllSpaces, AllDigits, Value, ParseNumber;
    FirstIsFound(s, ':', close, colon);
    ColonIsFirst(s, close, colon);
    SpacesEnd(s, colon + 1, start);
    DigitEndIs(s, start, end);
    NumberOf(s, key, close, colon, start, end);
  }

  lemma {:induction false} EntryErrors(s: string, pos: nat, state: State)
    requires pos <= |s| && ParseEntries(s, pos, state).Err?
    ensures !ParseEntries(s, pos, state).error.MissingShards? && !ParseEntries(s, pos, state).error.MalformedShards?
    decreases |s| - pos
  {
    var e := ParseEntry(s, pos);
    if e.Entry? { EntryErrors(s, e.next, state[e.id := e.sequence]); }
  }

  lemma TextFrom(s: string, p: nat)
    requires FindWord(s, SHARDS, 0) == p < |s|
    ensures var brace := Find(s, '{', p);
            ParseText(s) == if brace == |s| then Err(MalformedShards) else ParseEntries(s, brace + 1, map[])
    ensures ParseText(s) == Err(MalformedShards) ==> Find(s, '{', p) == |s|
    ensures ParseText(s) != Err(MissingShards)
  {
    hide FindWord, Find, ParseEntries;
    var brace := Find(s, '{', p);
    if brace < |s| && ParseText(s).Err? { EntryErrors(s, brace + 1, map[]); }
  }

  lemma MissingOnlyThere(s: string)
    ensures ParseText(s) == Err(MissingShards) <==> FindWord(s, SHARDS, 0) == |s|
  {
    var p := FindWord(s, SHARDS, 0);
    if p < |s| { TextFrom(s, p); }
  }

  lemma ShardsIs()
    ensures SHARDS == "\"shards\"" != []
  {
  }

  /** The word is missed if and only if it stands nowhere in the text. */
  lemma MissingIff(s: string)
    ensures ParseText(s) == Err(MissingShards) <==> NoWord(s, SHARDS)
  {
    hide *;
    ShardsIs();
    MissingOnlyThere(s);
    NoWordIff(s, SHARDS);
  }

  /** Behind the first such word, the brace is missed if and only if there is none; else the entries
      start behind the first one. */
  lemma MalformedIff(s: string, p: nat, brace: nat)
    requires FirstWord(s, SHARDS, p) && First(s, '{', p, brace)
    ensures ParseText(s) == Err(MalformedShards) <==> brace == |s|
    ensures brace < |s| ==> ParseText(s) == ParseEntries(s, brace + 1, map[])
  {
    hide *;
    ShardsIs();
    FirstWordIsFound(s, SHARDS, p);
    FirstIsFound(s, '{', p, brace);
    TextFrom(s, p);
  }

  /** The state after the entries of the order were put into it one by one. */
  function Put(order: seq<Shard>, state: State): State {
    if order == [] then state else Put(order[1..], state[order[0].id := order[0].sequence])
  }

  /** The entries before the end of the list, or before the first error, are taken one after the
      other; an error leaves none of them. */
  lemma {:induction false} EntriesAreTaken(s: string, at: seq<nat>, order: seq<Shard>, state: State)
    requires |at| == |order| + 1 && forall i :: 0 <= i < |at| ==> at[i] <= |s|
    requires forall i :: 0 <= i < |order| ==>
               ParseEntry(s, at[i]) == Entry(order[i].id, order[i].sequence, at[i + 1])
    requires !ParseEntry(s, at[|order|]).Entry?
    ensures ParseEntry(s, at[|order|]) == End ==> ParseEntries(s, at[0], state) == Ok(Put(order, state))
    ensures ParseEntry(s, at[|order|]).Bad? ==>
              ParseEntries(s, at[0], state) == Err(ParseEntry(s, at[|order|]).error)
    decreases |order|
  {
    if order != [] {
      EntriesAreTaken(s, at[1..], order[1..], state[order[0].id := order[0].sequence]);
    }
  }

  lemma {:induction false} OthersStay(order: seq<Shard>, state: State, id: string)
    requires forall i :: 0 <= i < |order| ==> order[i].id != id
    ensures id in Put(order, state) <==> id in state
    ensures id in state ==> Put(order, state)[id] == state[id]
    decreases |order|
  {
    if order != [] { OthersStay(order[1..], state[order[0].id := order[0].sequence], id); }
  }

  /** Of several entries for one shard the last one counts. */
  lemma {:induction false} LastEntryCounts(order: seq<Shard>, state: State, j: nat)
    requires j < |order| && forall k :: j < k < |order| ==> order[k].id != order[j].id
    ensures order[j].id in Put(order, state) && Put(order, state)[order[j].id] == order[j].sequence
    decreases |order|
  {
    var rest, next := order[1..], state[order[0].id := order[0].sequence];
    if j > 0 {
      LastEntryCounts(rest, next, j - 1);
    } else {
      assert forall k :: 0 <= k < |rest| ==> rest[k] == order[k + 1];
      OthersStay(rest, next, order[0].id);
    }
  }

  // ---------- the parser as it runs ----------

  method SkipSpaces(s: string, start: nat) returns (i: nat)
    requires start <= |s|
    ensures i == SkipSpace(s, start)
  {
    i := start;
    while i < |s| && IsSpace(s[i])
      invariant start <= i <= |s| && SkipSpace(s, i) == SkipSpace(s, start)
    {
      i := i + 1;
    }
  }

  method ScanNumber(s: string, key: string, quoteEnd: nat) returns (e: Entry)
    requires quoteEnd < |s|
    ensures e == ParseNumber(s, key, quoteEnd)
  {
    var colonPos := FindChar(s, ':', quoteEnd);
    if colonPos == |s| {
      return End;
    }
    var closeBrace := FindChar(s, '}', quoteEnd);
    if closeBrace < |s| && closeBrace < colonPos {
      return End;
    }
    var numStart := SkipSpaces(s, colonPos + 1);
    var numEnd := DigitRun(s, numStart);
    if numEnd == numStart {
      return Bad(NonNumeric(key));
    }
    match StoULL(s[numStart..numEnd]) {
      case OutOfRange => return Bad(InvalidNumber(key));
      case Parsed(sequence) => return Entry(key, sequence, numEnd);
    }
  }

  method ScanEntry(s: string, pos: nat) returns (e: Entry)
    requires pos <= |s|
    ensures e == ParseEntry(s, pos)
  {
    var quoteStart := FindChar(s, '"', pos);
    if quoteStart == |s| {
      return End;
    }
    var quoteEnd := FindChar(s, '"', quoteStart + 1);
    if quoteEnd == |s| {
      return Bad(UnterminatedString);
    }
    e := ScanNumber(s, s[quoteStart + 1..quoteEnd], quoteEnd);
  }

  method ScanEntries(content: string, start: nat) returns (result: Parse)
    requires start <= |content|
    ensures result == ParseEntries(content, start, map[])
  {
    var pos := start;
    var state: State := map[];
    while pos < |content|
      invariant start <= pos <= |content|
      invariant ParseEntries(content, pos, state) == ParseEntries(content, start, map[])
    {
      var e := ScanEntry(content, pos);
      match e {
        case End => return Ok(state);
        case Bad(error) => return Err(error);
        case Entry(id, sequence, next) => state, pos := state[id := sequence], next;
      }
    }
    result := Ok(state);
  }

  /** The whole text: the word "shards", its opening brace, the entries. */
  method ScanText(content: string) returns (result: Parse)
    ensures result == ParseText(content)
  {
    hide FindWord, Find, ParseEntries, WordAt, Clear;
    var shardsPos := FindText(content, SHARDS, 0);
    if shardsPos == |content| {
      return Err(MissingShards);
    }
    var bracePos := FindChar(content, '{', shardsPos);
    if bracePos == |content| {
      return Err(MalformedShards);
    }
    result := ScanEntries(content, bracePos + 1);
  }

  /** The tracker and its checkpoint file. */
  class ReplicationCheckpoint {
    var lastApplied: State

    constructor (lastApplied: State)
      ensures this.lastApplied == lastApplied
    {
      this.lastApplied := lastApplied;
    }

    /** A missing file is a fresh start; any failure leaves the tracker as it was. */
    method Load(present: bool, content: string) returns (result: Parse)
      modifies this
      ensures !present ==> result == Ok(old(lastApplied))
      ensures present ==> result == ParseText(content)
      ensures lastApplied == if result.Ok? then result.state else old(lastApplied)
    {
      if !present {
        return Ok(lastApplied);
      }
      result := ScanText(content);
      if result.Ok? {
        lastApplied := result.state;
      }
    }
  }

  // ---------- round trip ----------

  /** The order lists the map: each shard once, with its sequence. */
  ghost predicate Lists(order: seq<Shard>, state: State) {
    && (forall i :: 0 <= i < |order| ==> order[i].id in state && state[order[i].id] == order[i].sequence)
    && (forall id :: id in state ==> exists i :: 0 <= i < |order| && order[i].id == id)
    && (forall i, j :: 0 <= i < j < |order| ==> order[i].id != order[j].id)
  }

  lemma KeyOpens(s: string, pos: nat, sep: string, id: string, number: string)
    requires pos + |sep| <= |s| && s[pos..pos + |sep|] == sep && s[pos + |sep|..] == ['"'] + (id + number)
            && '"' !in sep
    ensures pos + |sep| < |s| && Find(s, '"', pos) == pos + |sep|
  {
    OpeningLies(s, pos + |sep|, id, number);
    FindIs(s, '"', pos, pos + |sep|);
  }

  lemma KeyCloses(s: string, open: nat, id: string, number: string)
    requires open <= |s| && s[open..] == ['"'] + (id + number) && '"' !in id && number != [] && number[0] == '"'
    ensures open + 1 + |id| < |s| && Find(s, '"', open + 1) == open + 1 + |id|
    ensures s[open + 1..open + 1 + |id|] == id && s[open + 1 + |id|..] == number
  {
    OpeningLies(s, open, id, number);
    assert s[open + 1 + |id|] == s[open + 1 + |id|..][0];
    FindIs(s, '"', open + 1, open + 1 + |id|);
  }

  /** Where a quoted key lies. */
  lemma KeyLies(s: string, pos: nat, sep: string, id: string, number: string, open: nat, close: nat)
    requires pos <= |s| && s[pos..] == sep + (['"'] + (id + number))
    requires '"' !in sep && '"' !in id && number != [] && number[0] == '"'
    requires open == pos + |sep| && close == open + 1 + |id|
    ensures close < |s| && Find(s, '"', pos) == open && Find(s, '"', open + 1) == close
    ensures s[open + 1..close] == id && s[close..] == number
  {
    SplitReads(s, pos, sep, ['"'] + (id + number));
    KeyOpens(s, pos, sep, id, number);
    KeyCloses(s, open, id, number);
  }

  lemma EntryAt(s: string, pos: nat, open: nat, close: nat, key: string)
    requires pos <= |s| && Find(s, '"', pos) == open < |s| && Find(s, '"', open + 1) == close < |s|
    requires s[open + 1..close] == key
    ensures ParseEntry(s, pos) == ParseNumber(s, key, close)
  {
  }

  lemma NoQuoteIn(first: bool)
    ensures '"' !in Separator(first)
  {
  }

  lemma ColonAt(s: string, close: nat)
    requires close + 3 <= |s| && s[close..close + 3] == COLON
    ensures Find(s, ':', close) == close + 1 && Find(s, '}', close) > close + 1 && s[close + 2] == ' '
  {
    var c := s[close..close + 3];
    assert s[close] == c[0] && s[close + 1] == c[1] && s[close + 2] == c[2];
    assert c[0] == '"' && c[1] == ':' && c[2] == ' ';
  }

  lemma ParsesNumber(s: string, key: string, close: nat, n: U64, rest: string)
    requires close < |s| && s[close..] == COLON + (Digits(n) + rest)
    requires rest != [] ==> !IsDigit(rest[0])
    ensures ParseNumber(s, key, close).Entry?
    ensures var e := ParseNumber(s, key, close); e.id == key && e.sequence == n && s[e.next..] == rest
  {
    SplitReads(s, close, COLON, Digits(n) + rest);
    var start := close + 3;
    SplitReads(s, start, Digits(n), rest);
    var end := start + |Digits(n)|;
    ColonAt(s, close);
    assert s[start] == s[start..end][0];
    assert SkipSpace(s, close + 2) == start;
    assert end < |s| ==> s[end] == s[end..][0];
    DigitEndIs(s, start, end);
    StoULLOfDigits(n);
  }

  /** The parser finds the parts of a printed line. */
  lemma ParsesLine(s: string, pos: nat, first: bool, shard: Shard, rest: string)
    requires pos <= |s| && s[pos..] == Line(first, shard, rest)
    requires '"' !in shard.id && (rest != [] ==> !IsDigit(rest[0]))
    ensures ParseEntry(s, pos).Entry?
    ensures var e := ParseEntry(s, pos); e.id == shard.id && e.sequence == shard.sequence && s[e.next..] == rest
  {
    var sep, number := Separator(first), COLON + (Digits(shard.sequence) + rest);
    NoQuoteIn(first);
    assert number[0] == '"';
    var open := pos + |sep|;
    var close := open + 1 + |shard.id|;
    KeyLies(s, pos, sep, shard.id, number, open, close);
    EntryAt(s, pos, open, close, shard.id);
    ParsesNumber(s, shard.id, close, shard.sequence, rest);
  }

  lemma LinesStart(first: bool, order: seq<Shard>)
    ensures Lines(first, order) != [] && !IsDigit(Lines(first, order)[0])
  {
  }

  /** The parser reads every printed line back, in order, and stops at the closing brace. */
  lemma {:induction false} ParsesLines(s: string, pos: nat, first: bool, order: seq<Shard>, state: State)
    requires pos <= |s| && s[pos..] == Lines(first, order)
    requires forall i :: 0 <= i < |order| ==> '"' !in order[i].id
    ensures ParseEntries(s, pos, state) == Ok(Put(order, state))
    decreases |order|
  {
    if order == [] {
      assert '"' !in TAIL;
      assert s[pos..|s|] == TAIL;
      FindIs(s, '"', pos, |s|);
    } else {
      LinesStart(false, order[1..]);
      ParsesLine(s, pos, first, order[0], Lines(false, order[1..]));
      ParsesLines(s, ParseEntry(s, pos).next, false, order[1..], state[order[0].id := order[0].sequence]);
    }
  }

  lemma PutLists(order: seq<Shard>, state: State)
    requires forall i, j :: 0 <= i < j < |order| ==> order[i].id != order[j].id
    ensures forall i :: 0 <= i < |order| ==>
              order[i].id in Put(order, state) && Put(order, state)[order[i].id] == order[i].sequence
    ensures forall id :: (forall i :: 0 <= i < |order| ==> order[i].id != id) ==>
              (id in Put(order, state) <==> id in state) && (id in state ==> Put(order, state)[id] == state[id])
  {
    forall i | 0 <= i < |order|
      ensures order[i].id in Put(order, state) && Put(order, state)[order[i].id] == order[i].sequence
    {
      LastEntryCounts(order, state, i);
    }
    forall id | forall i :: 0 <= i < |order| ==> order[i].id != id
      ensures (id in Put(order, state) <==> id in state) && (id in state ==> Put(order, state)[id] == state[id])
    {
      OthersStay(order, state, id);
    }
  }

  /** A quoted text that starts otherwise than the word looked for is passed over. */
  lemma PassesOpening(s: string, i: nat, u: string, rest: string, word: string)
    requires i <= |s| && s[i..] == ['"'] + (u + rest)
    requires |word| > 1 && word[0] == '"' && '"' !in u && u != [] && u[0] != word[1]
    ensures var j := i + 1 + |u|; j <= |s| && Clear(s, word, i, j) && s[j..] == rest
  {
    OpeningLies(s, i, u, rest);
    assert s[i + 1] == s[i + 1..i + 1 + |u|][0];
    OtherSecond(s, word, i);
    ClearGap(s, word, i + 1, i + 1 + |u|);
  }

  lemma QuoteFirst(a: string, b: string)
    requires a != [] && a[0] == '"'
    ensures a + b == ['"'] + (a[1..] + b)
  {
  }

  lemma FindsShards(s: string, rest: string)
    requires s == OPENING + (['"'] + (VERSION + (ONE + (SHARDS + rest))))
    ensures FindWord(s, SHARDS, 0) == |OPENING| + 1 + |VERSION| + |ONE| < |s|
    ensures s[|OPENING| + 1 + |VERSION| + |ONE|..] == SHARDS + rest
  {
    assert s[0..] == s;
    var open := |OPENING|;
    var close := open + 1 + |VERSION|;
    PassesGap(s, 0, OPENING, ['"'] + (VERSION + (ONE + (SHARDS + rest))), SHARDS);
    PassesOpening(s, open, VERSION, ONE + (SHARDS + rest), SHARDS);
    QuoteFirst(ONE, SHARDS + rest);
    PassesOpening(s, close, ONE[1..], SHARDS + rest, SHARDS);
    SplitReads(s, close + |ONE|, SHARDS, rest);
    FindWordIs(s, SHARDS, 0, close + |ONE|);
  }

  lemma BraceBehind(s: string, found: nat, body: string)
    requires found < |s| && Reads(s, found, SHARDS, BRACE + body)
    ensures Find(s, '{', found) == found + |SHARDS| + |BRACE| - 1
    ensures s[found + |SHARDS| + |BRACE|..] == body
  {
    var i := found + |SHARDS|;
    SplitReads(s, i, BRACE, body);
    var brace := i + |BRACE| - 1;
    assert s[brace] == s[i..i + |BRACE|][|BRACE| - 1];
    assert s[found..brace] == SHARDS + BRACE[..|BRACE| - 1];
    assert '{' !in SHARDS && '{' !in BRACE[..|BRACE| - 1];
    FindIs(s, '{', found, brace);
  }

  lemma PutsAll(order: seq<Shard>, state: State)
    requires Lists(order, state)
    ensures Put(order, map[]) == state
  {
    PutLists(order, map[]);
    var put := Put(order, map[]);
    forall id ensures id in put <==> id in state {
      if id in state {
        var i :| 0 <= i < |order| && order[i].id == id;
      }
    }
    forall id | id in state ensures put[id] == state[id] {
      var i :| 0 <= i < |order| && order[i].id == id;
    }
  }

  /** Round trip: loading the text saved for a finite map restores exactly that map, whatever the
      iteration order was, if no shard id holds a double quote. */
  lemma SavedTextLoads(order: seq<Shard>, state: State)
    requires Lists(order, state) && forall id :: id in state ==> '"' !in id
    ensures ParseText(SavedText(order)) == Ok(state)
  {
    var s, body := SavedText(order), Lines(true, order);
    FindsShards(s, BRACE + body);
    var found := FindWord(s, SHARDS, 0);
    SplitReads(s, found, SHARDS, BRACE + body);
    BraceBehind(s, found, body);
    ParsesLines(s, found + |SHARDS| + |BRACE|, true, order, map[]);
    PutsAll(order, state);
  }

  lemma EntryHasNoQuote(s: string, pos: nat)
    requires pos <= |s| && ParseEntry(s, pos).Entry?
    ensures '"' !in ParseEntry(s, pos).id
  {
    NoneBefore(s, '"', Find(s, '"', pos) + 1);
  }

  /** No loaded shard id holds a double quote, whatever the text was. */
  lemma {:induction false} LoadedIdsHaveNoQuote(s: string, pos: nat, state: State)
    requires pos <= |s| && forall id :: id in state ==> '"' !in id
    requires ParseEntries(s, pos, state).Ok?
    ensures forall id :: id in ParseEntries(s, pos, state).state ==> '"' !in id
    decreases |s| - pos
  {
    var e := ParseEntry(s, pos);
    if e.Entry? {
      EntryHasNoQuote(s, pos);
      LoadedIdsHaveNoQuote(s, e.next, state[e.id := e.sequence]);
    }
  }

  lemma LoadedHasNoQuote(s: string)
    requires ParseText(s).Ok?
    ensures forall id :: id in ParseText(s).state ==> '"' !in id
  {
    LoadedIdsHaveNoQuote(s, Find(s, '{', FindWord(s, SHARDS, 0)) + 1, map[]);
  }

  /** So the round trip holds exactly for the maps whose ids hold no double quote. */
  lemma RoundTripIff(order: seq<Shard>, state: State)
    requires Lists(order, state)
    ensures ParseText(SavedText(order)) == Ok(state) <==> forall id :: id in state ==> '"' !in id
  {
    if forall id :: id in state ==> '"' !in id {
      SavedTextLoads(order, state);
    } else if ParseText(SavedText(order)) == Ok(state) {
      LoadedHasNoQuote(SavedText(order));
    }
  }
}
