/** The backup manifest's hand-written JSON printer and parser.
    Models `BackupManifest::toJson`, `fromJson` and the extract helpers of
    Enterprise/RocksDBEngine/RocksDBHotBackup.cpp. */
module BackupManifest {
  import opened Words
  import opened Text

  datatype Manifest = Manifest(backupId: string, timestamp: string, version: string, sequenceNumber: U64,
                               path: string, isConsistent: bool, collections: seq<string>)

  const COLON := "\": "
  const GAP := ": "
  const END := "\n}"

  // ---------- the text ----------

  /** A field is a quoted string or raw text: a number, a boolean, the list of collections. */
  datatype Field = Str(name: string, value: string) | Raw(name: string, value: string)

  /** What is printed behind the colon of a field, before the rest of the text. */
  function Body(f: Field, rest: string): string {
    match f
    case Str(_, value) => ['"'] + (value + (['"'] + rest))
    case Raw(_, value) => value + rest
  }

  function FieldText(f: Field, rest: string): string {
    "  " + (['"'] + (f.name + (COLON + Body(f, rest))))
  }

  function Render(fields: seq<Field>): string
    requires fields != []
    decreases |fields|, 1
  {
    FieldText(fields[0], Behind(fields))
  }

  /** Behind a field comes a comma or the end of its line. */
  predicate EndsField(rest: string) {
    rest != [] && (rest[0] == ',' || rest[0] == '\n')
  }

  /** What follows the first field. */
  function Behind(fields: seq<Field>): (r: string)
    requires fields != []
    ensures EndsField(r)
    decreases |fields|, 0
  {
    if |fields| == 1 then END else ",\n" + Render(fields[1..])
  }

  function Items(first: bool, names: seq<string>): string {
    if names == [] then ""
    else (if first then "" else ", ") + (['"'] + (names[0] + (['"'] + Items(false, names[1..]))))
  }

  function ListText(names: seq<string>): string {
    "[" + (Items(true, names) + "]")
  }

  function BoolText(b: bool): string {
    if b then "true" else "false"
  }

  function Fields(m: Manifest): seq<Field> {
    [Str("backupId", m.backupId), Str("timestamp", m.timestamp), Str("version", m.version),
     Raw("sequenceNumber", Digits(m.sequenceNumber)), Str("path", m.path),
     Raw("isConsistent", BoolText(m.isConsistent)), Raw("collections", ListText(m.collections))]
  }

  function ToJson(m: Manifest): string {
    "{\n" + Render(Fields(m))
  }

  method AppendField(text: string, f: Field, ghost rest: string) returns (r: string)
    ensures r + rest == text + FieldText(f, rest)
  {
    PushIn(text, "  ", ['"'] + (f.name + (COLON + Body(f, rest))));
    PushIn(text + "  ", ['"'], f.name + (COLON + Body(f, rest)));
    PushIn(text + "  " + ['"'], f.name, COLON + Body(f, rest));
    PushIn(text + "  " + ['"'] + f.name, COLON, Body(f, rest));
    r := text + "  " + ['"'] + f.name + COLON;
    if f.Str? {
      PushIn(r, ['"'], f.value + (['"'] + rest));
      PushIn(r + ['"'], f.value, ['"'] + rest);
      PushIn(r + ['"'] + f.value, ['"'], rest);
      r := r + ['"'] + f.value + ['"'];
    } else {
      PushIn(r, f.value, rest);
      r := r + f.value;
    }
  }

  function Quoted(value: string): string {
    "\"" + value + "\""
  }

  function LineOf(name: string, value: string): string {
    "  \"" + name + "\": " + value
  }

  lemma FieldIsLine(f: Field, rest: string)
    ensures FieldText(f, rest) == LineOf(f.name, if f.Str? then Quoted(f.value) else f.value) + rest
  {
    assert "  " + ['"'] == "  \"";
    PushIn("  ", ['"'], f.name + (COLON + Body(f, rest)));
    PushIn("  \"", f.name, COLON + Body(f, rest));
    PushIn("  \"" + f.name, COLON, Body(f, rest));
    var line := "  \"" + f.name + COLON;
    if f.Str? {
      PushIn(['"'], f.value, ['"'] + rest);
      PushIn(['"'] + f.value, ['"'], rest);
      PushIn(line, Quoted(f.value), rest);
    } else {
      PushIn(line, f.value, rest);
    }
  }

  lemma FirstLine(text: string, fields: seq<Field>, value: string)
    requires fields != [] && value == if fields[0].Str? then Quoted(fields[0].value) else fields[0].value
    ensures text + Render(fields) ==
            text + LineOf(fields[0].name, value) +
            if |fields| == 1 then "\n}" else ",\n" + Render(fields[1..])
  {
    hide LineOf, FieldText;
    FieldIsLine(fields[0], Behind(fields));
    PushIn(text, LineOf(fields[0].name, value), Behind(fields));
  }

  lemma NextLine(text: string, fields: seq<Field>, k: nat, name: string, value: string)
    requires k + 1 < |fields| && fields[k].name == name
    requires value == if fields[k].Str? then Quoted(fields[k].value) else fields[k].value
    ensures text + Render(fields[k..]) == text + LineOf(name, value) + ",\n" + Render(fields[k + 1..])
  {
    hide LineOf, Render;
    FirstLine(text, fields[k..], value);
    assert fields[k..][1..] == fields[k + 1..];
    PushIn(text + LineOf(name, value), ",\n", Render(fields[k + 1..]));
  }

  /** The text, line by line. */
  lemma JsonIs(m: Manifest)
    ensures ToJson(m) ==
            "{\n" + LineOf("backupId", Quoted(m.backupId)) + ",\n"
            + LineOf("timestamp", Quoted(m.timestamp)) + ",\n"
            + LineOf("version", Quoted(m.version)) + ",\n"
            + LineOf("sequenceNumber", Digits(m.sequenceNumber)) + ",\n"
            + LineOf("path", Quoted(m.path)) + ",\n"
            + LineOf("isConsistent", if m.isConsistent then "true" else "false") + ",\n"
            + LineOf("collections", ListText(m.collections)) + "\n}"
  {
    var fields := Fields(m);
    hide LineOf, Render, Quoted, Digits, ListText;
    var t1 := "{\n" + LineOf("backupId", Quoted(m.backupId)) + ",\n";
    var t2 := t1 + LineOf("timestamp", Quoted(m.timestamp)) + ",\n";
    var t3 := t2 + LineOf("version", Quoted(m.version)) + ",\n";
    var t4 := t3 + LineOf("sequenceNumber", Digits(m.sequenceNumber)) + ",\n";
    var t5 := t4 + LineOf("path", Quoted(m.path)) + ",\n";
    var t6 := t5 + LineOf("isConsistent", BoolText(m.isConsistent)) + ",\n";
    assert fields[0..] == fields;
    NextLine("{\n", fields, 0, "backupId", Quoted(m.backupId));
    NextLine(t1, fields, 1, "timestamp", Quoted(m.timestamp));
    NextLine(t2, fields, 2, "version", Quoted(m.version));
    NextLine(t3, fields, 3, "sequenceNumber", Digits(m.sequenceNumber));
    NextLine(t4, fields, 4, "path", Quoted(m.path));
    NextLine(t5, fields, 5, "isConsistent", BoolText(m.isConsistent));
    FirstLine(t6, fields[6..], ListText(m.collections));
  }

  /** A list is its quoted names in brackets, with a comma and a blank between them. */
  lemma ItemsAreSeparated(name: string, names: seq<string>)
    ensures Items(true, [name]) == Quoted(name)
    ensures names != [] ==> Items(true, [name] + names) == Quoted(name) + ", " + Items(true, names)
    ensures forall list :: ListText(list) == "[" + Items(true, list) + "]"
  {
    var all, rest := [name] + names, Items(false, names);
    assert all[1..] == names && [name][1..] == [];
    PushIn(['"'], name, ['"'] + rest);
    PushIn(['"'] + name, ['"'], rest);
    assert "" + (['"'] + (name + (['"'] + rest))) == ['"'] + (name + (['"'] + rest));
    assert Items(true, [name]) == "" + (['"'] + (name + (['"'] + "")));
    if names != [] {
      var behind := ['"'] + (names[0] + (['"'] + Items(false, names[1..])));
      assert "" + behind == behind;
      PushIn(Quoted(name), ", ", behind);
    }
    forall list ensures ListText(list) == "[" + Items(true, list) + "]" {
      PushIn("[", Items(true, list), "]");
    }
  }

  method PrintList(names: seq<string>) returns (text: string)
    ensures text == ListText(names)
  {
    text := "[";
    assert names[0..] == names;
    for i := 0 to |names|
      invariant text + Items(i == 0, names[i..]) == "[" + Items(true, names)
    {
      ghost var rest := Items(false, names[i + 1..]);
      assert names[i..][0] == names[i] && names[i..][1..] == names[i + 1..];
      ghost var sep := if i > 0 then ", " else "";
      PushIn(text, sep, ['"'] + (names[i] + (['"'] + rest)));
      PushIn(text + sep, ['"'], names[i] + (['"'] + rest));
      PushIn(text + sep + ['"'], names[i], ['"'] + rest);
      PushIn(text + sep + ['"'] + names[i], ['"'], rest);
      text := text + (if i > 0 then ", " else "");
      text := text + ['"'] + names[i] + ['"'];
    }
    assert names[|names|..] == [];
    PushIn("[", Items(true, names), "]");
    text := text + "]";
  }

  /** Appends the fields one by one, as the stream does. */
  method PrintFields(fields: seq<Field>) returns (text: string)
    requires fields != []
    ensures text == "{\n" + Render(fields)
  {
    text := "{\n";
    var i := 0;
    assert fields[0..] == fields;
    while i + 1 < |fields|
      invariant 0 <= i < |fields| && text + Render(fields[i..]) == "{\n" + Render(fields)
    {
      assert fields[i..][0] == fields[i] && fields[i..][1..] == fields[i + 1..];
      text := AppendField(text, fields[i], Behind(fields[i..]));
      PushIn(text, ",\n", Render(fields[i + 1..]));
      text := text + ",\n";
      i := i + 1;
    }
    assert fields[i..][0] == fields[i];
    text := AppendField(text, fields[i], END);
    text := text + END;
  }

  method PrintJson(m: Manifest) returns (text: string)
    ensures text == ToJson(m)
  {
    var list := PrintList(m.collections);
    text := PrintFields(
      [Str("backupId", m.backupId), Str("timestamp", m.timestamp), Str("version", m.version),
       Raw("sequenceNumber", Digits(m.sequenceNumber)), Str("path", m.path),
       Raw("isConsistent", if m.isConsistent then "true" else "false"), Raw("collections", list)]);
  }

  // ---------- the parser ----------

  /** The text a helper searches for: a quoted field name, a colon, and how the value opens. */
  function Marker(field: string, open: string): string {
    ['"'] + (field + (COLON + open))
  }

  /** Where the value of a field begins: behind the first occurrence of its marker. */
  datatype Place = Missing | At(pos: nat)

  function ValueOf(json: string, field: string, open: string): (p: Place)
    ensures p.At? ==> p.pos <= |json|
  {
    var i := FindWord(json, Marker(field, open), 0);
    if i == |json| then Missing else At(i + |Marker(field, open)|)
  }

  function ExtractString(json: string, field: string): string {
    match ValueOf(json, field, ['"'])
    case Missing => ""
    case At(pos) => var end := Find(json, '"', pos); if end == |json| then "" else json[pos..end]
  }

  predicate HasField(json: string, field: string) {
    FindWord(json, ['"'] + (field + ['"']), 0) < |json|
  }

  function ExtractUint64(json: string, field: string): Number {
    match ValueOf(json, field, "")
    case Missing => Parsed(0)
    case At(pos) => var end := DigitEnd(json, pos); if end == pos then Parsed(0) else StoULL(json[pos..end])
  }

  predicate ExtractBool(json: string, field: string) {
    match ValueOf(json, field, "")
    case Missing => false
    case At(pos) => WordAt(json, "true", pos)
  }

  function ParseItems(content: string, i: nat): seq<string>
    requires i <= |content|
    decreases |content| - i
  {
    var open := Find(content, '"', i);
    if open == |content| then [] else
      var close := Find(content, '"', open + 1);
      if close == |content| then [] else [content[open + 1..close]] + ParseItems(content, close + 1)
  }

  function ItemsOf(content: string): seq<string> {
    ParseItems(content, 0)
  }

  /** The items between a position and the next bracket. */
  function ItemsFrom(json: string, pos: nat): seq<string>
    requires pos <= |json|
  {
    var end := Find(json, ']', pos);
    if end == |json| then [] else ItemsOf(json[pos..end])
  }

  function ExtractArray(json: string, field: string): seq<string> {
    match ValueOf(json, field, "[")
    case Missing => []
    case At(pos) => ItemsFrom(json, pos)
  }

  /** How a parse ends: in success, in a bad request, or in the exception of `std::stoull`. */
  datatype Status = Success | BadRequest(message: string) | Thrown

  function Extracted(json: string, sequenceNumber: U64): Manifest {
    Manifest(ExtractString(json, "backupId"), ExtractString(json, "timestamp"), ExtractString(json, "version"),
             sequenceNumber, ExtractString(json, "path"), ExtractBool(json, "isConsistent"),
             ExtractArray(json, "collections"))
  }

  /** What an exception from the number leaves: the three fields assigned before it. */
  function Interrupted(json: string, before: Manifest): Manifest {
    before.(backupId := ExtractString(json, "backupId"), timestamp := ExtractString(json, "timestamp"),
            version := ExtractString(json, "version"))
  }

  /** The status, and what the output parameter holds afterwards. */
  function FromJson(json: string, before: Manifest): (Status, Manifest) {
    if json == "" then (BadRequest("Empty JSON input"), before)
    else if !HasField(json, "backupId") then (BadRequest("Missing required field: backupId"), before)
    else if !HasField(json, "timestamp") then (BadRequest("Missing required field: timestamp"), before)
    else
      match ExtractUint64(json, "sequenceNumber")
      case OutOfRange => (Thrown, Interrupted(json, before))
      case Parsed(n) =>
        var out := Extracted(json, n);
        if out.backupId == "" then (BadRequest("backupId cannot be empty"), out)
        else if out.timestamp == "" then (BadRequest("timestamp cannot be empty"), out)
        else (Success, out)
  }

  // ---------- what the helpers extract, from any text ----------

  lemma MarkerIs(field: string, open: string)
    ensures Marker(field, open) == "\"" + field + "\": " + open != []
  {
    assert ['"'] + (field + (COLON + open)) == "\"" + field + (COLON + open);
  }

  /** The value of a field begins behind the first place that reads its quoted name, a colon, a blank
      and the opening. */
  lemma ValueOfIs(json: string, field: string, open: string, p: nat)
    requires FirstWord(json, "\"" + field + "\": " + open, p)
    ensures ValueOf(json, field, open) == At(p + |field| + 4 + |open|)
  {
    hide FirstWord, FindWord, Marker;
    MarkerIs(field, open);
    FirstWordIsFound(json, Marker(field, open), p);
  }

  lemma ValueIsMissingIff(json: string, field: string, open: string)
    ensures ValueOf(json, field, open) == Missing <==> NoWord(json, "\"" + field + "\": " + open)
  {
    hide NoWord, FindWord, Marker;
    MarkerIs(field, open);
    NoWordIff(json, Marker(field, open));
  }

  lemma HasFieldIff(json: string, field: string)
    ensures HasField(json, field) <==> !NoWord(json, "\"" + field + "\"")
  {
    hide NoWord, FindWord;
    NoWordIff(json, ['"'] + (field + ['"']));
    assert ['"'] + (field + ['"']) == "\"" + field + "\"";
  }

  /** A string reaches to the next quote; without one, or without the field, it is empty. */
  lemma StringIs(json: string, field: string, p: nat, end: nat)
    requires ValueOf(json, field, "\"") == At(p) && First(json, '"', p, end)
    ensures ExtractString(json, field) == if end == |json| then "" else json[p..end]
  {
    FirstIsFound(json, '"', p, end);
  }

  /** A number is the run of digits there: zero if it is empty, out of range if it needs more than 64
      bits. */
  lemma NumberIs(json: string, field: string, p: nat, end: nat)
    requires ValueOf(json, field, "") == At(p) && p <= end <= |json|
    requires AllDigits(json[p..end]) && (end < |json| ==> !('0' <= json[end] <= '9'))
    ensures ExtractUint64(json, field) ==
            if Value(json[p..end]) < 0x1_0000_0000_0000_0000 then Parsed(Value(json[p..end])) else OutOfRange
  {
    DigitEndIs(json, p, end);
  }

  /** A boolean is true if and only if the word stands there. */
  lemma BoolIs(json: string, field: string, p: nat)
    requires ValueOf(json, field, "") == At(p)
    ensures ExtractBool(json, field) <==> p + 4 <= |json| && json[p..p + 4] == "true"
  {
  }

  /** What a missing field extracts to. */
  lemma MissingIs(json: string, field: string)
    ensures ValueOf(json, field, "\"") == Missing ==> ExtractString(json, field) == ""
    ensures ValueOf(json, field, "") == Missing ==> ExtractUint64(json, field) == Parsed(0) && !ExtractBool(json, field)
    ensures ValueOf(json, field, "[") == Missing ==> ExtractArray(json, field) == []
  {
  }

  /** A list reaches to the next bracket; without one it is empty. */
  lemma ListIs(json: string, field: string, p: nat, end: nat)
    requires ValueOf(json, field, "[") == At(p) && First(json, ']', p, end)
    ensures ExtractArray(json, field) == if end == |json| then [] else ParseItems(json[p..end], 0)
  {
    FirstIsFound(json, ']', p, end);
  }

  /** Its items stand between pairs of quotes; a quote without a partner ends it. */
  lemma ItemsAre(content: string, i: nat, open: nat, close: nat)
    requires i <= |content| && First(content, '"', i, open)
    requires open < |content| ==> First(content, '"', open + 1, close)
    ensures ParseItems(content, i) ==
            if open == |content| || close == |content| then []
            else [content[open + 1..close]] + ParseItems(content, close + 1)
  {
    FirstIsFound(content, '"', i, open);
    if open < |content| { FirstIsFound(content, '"', open + 1, close); }
  }

  /** Where the value of a field begins, or npos. */
  method FindValue(json: string, key: string) returns (found: bool, pos: nat)
    ensures pos <= |json|
    ensures found <==> FindWord(json, key, 0) < |json|
    ensures found ==> pos == FindWord(json, key, 0) + |key|
  {
    pos := FindText(json, key, 0);
    found := pos != |json|;
    if found {
      pos := pos + |key|;
    }
  }

  method ExtractStringField(json: string, field: string) returns (r: string)
    ensures r == ExtractString(json, field)
  {
    hide FindWord, Find, Marker;
    var found, pos := FindValue(json, Marker(field, ['"']));
    if !found {
      return "";
    }
    var end := FindChar(json, '"', pos);
    r := if end == |json| then "" else json[pos..end];
  }

  method ExtractUint64Field(json: string, field: string) returns (r: Number)
    ensures r == ExtractUint64(json, field)
  {
    var found, pos := FindValue(json, Marker(field, ""));
    if !found {
      return Parsed(0);
    }
    var end := DigitRun(json, pos);
    r := if end == pos then Parsed(0) else StoULL(json[pos..end]);
  }

  method ExtractBoolField(json: string, field: string) returns (r: bool)
    ensures r == ExtractBool(json, field)
  {
    var found, pos := FindValue(json, Marker(field, ""));
    r := found && pos + 4 <= |json| && json[pos..pos + 4] == "true";
  }

  /** The loop ends where an opening or a closing quote is missing. */
  lemma ParseEnds(content: string, i: nat)
    requires i <= |content|
    requires var open := Find(content, '"', i); open < |content| ==> Find(content, '"', open + 1) == |content|
    ensures ParseItems(content, i) == []
  {
  }

  lemma ParseMore(content: string, i: nat, open: nat, close: nat)
    requires i <= |content| && open == Find(content, '"', i) < |content|
    requires close == Find(content, '"', open + 1) < |content|
    ensures ParseItems(content, i) == [content[open + 1..close]] + ParseItems(content, close + 1)
  {
  }

  /** The next pair of quotes, if both are there. */
  method NextItem(content: string, i: nat) returns (found: bool, quoteStart: nat, quoteEnd: nat)
    requires i <= |content|
    ensures found ==> i <= quoteStart < quoteEnd < |content|
    ensures found ==> ParseItems(content, i) == [content[quoteStart + 1..quoteEnd]] + ParseItems(content, quoteEnd + 1)
    ensures !found ==> ParseItems(content, i) == []
  {
    found, quoteEnd := false, 0;
    quoteStart := FindChar(content, '"', i);
    if quoteStart < |content| {
      quoteEnd := FindChar(content, '"', quoteStart + 1);
      found := quoteEnd < |content|;
    }
    if found { ParseMore(content, i, quoteStart, quoteEnd); } else { ParseEnds(content, i); }
  }

  /** The loop of `extractStringArray`. */
  method ScanItems(content: string) returns (result: seq<string>)
    ensures result == ItemsOf(content)
  {
    result := [];
    var i := 0;
    ghost var all := ParseItems(content, i);
    while i < |content|
      invariant 0 <= i <= |content|
      invariant result + ParseItems(content, i) == all
      decreases |content| - i
    {
      var found, quoteStart, quoteEnd := NextItem(content, i);
      if !found {
        break;
      }
      result := result + [content[quoteStart + 1..quoteEnd]];
      i := quoteEnd + 1;
    }
    assert result == all;
  }

  method ScanItemsFrom(json: string, pos: nat) returns (result: seq<string>)
    requires pos <= |json|
    ensures result == ItemsFrom(json, pos)
  {
    var end := FindChar(json, ']', pos);
    if end == |json| {
      return [];
    }
    result := ScanItems(json[pos..end]);
  }

  method ExtractStringArray(json: string, field: string) returns (result: seq<string>)
    ensures result == ExtractArray(json, field)
  {
    var found, pos := FindValue(json, Marker(field, "["));
    if !found {
      return [];
    }
    result := ScanItemsFrom(json, pos);
  }

  /** The manifest object that `fromJson` fills field by field. */
  class Record {
    var backupId: string
    var timestamp: string
    var version: string
    var sequenceNumber: U64
    var path: string
    var isConsistent: bool
    var collections: seq<string>

    ghost function Value(): Manifest
      reads this
    {
      Manifest(backupId, timestamp, version, sequenceNumber, path, isConsistent, collections)
    }

    constructor ()
      ensures Value() == Manifest("", "", "", 0, "", false, [])
    {
      backupId, timestamp, version, path := "", "", "", "";
      sequenceNumber, isConsistent, collections := 0, false, [];
    }

    method Print() returns (text: string)
      ensures text == ToJson(Value())
    {
      text := PrintJson(Manifest(backupId, timestamp, version, sequenceNumber, path, isConsistent, collections));
    }

    method AssignHead(json: string)
      modifies `backupId, `timestamp, `version
      ensures backupId == ExtractString(json, "backupId") && timestamp == ExtractString(json, "timestamp")
      ensures version == ExtractString(json, "version")
    {
      backupId := ExtractStringField(json, "backupId");
      timestamp := ExtractStringField(json, "timestamp");
      version := ExtractStringField(json, "version");
    }

    method AssignTail(json: string)
      modifies `path, `isConsistent, `collections
      ensures path == ExtractString(json, "path") && isConsistent == ExtractBool(json, "isConsistent")
      ensures collections == ExtractArray(json, "collections")
    {
      path := ExtractStringField(json, "path");
      isConsistent := ExtractBoolField(json, "isConsistent");
      collections := ExtractStringArray(json, "collections");
    }

    /** Assigns the fields in the source's order; a number that does not fit throws before `path`. */
    method Assign(json: string) returns (thrown: bool)
      modifies this
      ensures thrown <==> ExtractUint64(json, "sequenceNumber") == OutOfRange
      ensures Value() == match ExtractUint64(json, "sequenceNumber")
                         case Parsed(n) => Extracted(json, n)
                         case OutOfRange => Interrupted(json, old(Value()))
    {
      AssignHead(json);
      var number := ExtractUint64Field(json, "sequenceNumber");
      thrown := number.OutOfRange?;
      if !thrown {
        sequenceNumber := number.value;
        AssignTail(json);
      }
    }

    method Parse(json: string) returns (status: Status)
      modifies this
      ensures (status, Value()) == FromJson(json, old(Value()))
      ensures status == (if json == "" then BadRequest("Empty JSON input")
                         else if !HasField(json, "backupId") then BadRequest("Missing required field: backupId")
                         else if !HasField(json, "timestamp") then BadRequest("Missing required field: timestamp")
                         else if ExtractUint64(json, "sequenceNumber").OutOfRange? then Thrown
                         else if backupId == "" then BadRequest("backupId cannot be empty")
                         else if timestamp == "" then BadRequest("timestamp cannot be empty")
                         else Success)
      ensures json == "" || !HasField(json, "backupId") || !HasField(json, "timestamp") ==> unchanged(this)
      ensures json != "" && HasField(json, "backupId") && HasField(json, "timestamp") ==>
                && backupId == ExtractString(json, "backupId")
                && timestamp == ExtractString(json, "timestamp")
                && version == ExtractString(json, "version")
                && (status == Thrown ==>
                      && sequenceNumber == old(sequenceNumber) && path == old(path)
                      && isConsistent == old(isConsistent) && collections == old(collections))
                && (status != Thrown ==>
                      && ExtractUint64(json, "sequenceNumber") == Parsed(sequenceNumber)
                      && path == ExtractString(json, "path")
                      && isConsistent == ExtractBool(json, "isConsistent")
                      && collections == ExtractArray(json, "collections"))
    {
      if json == "" {
        return BadRequest("Empty JSON input");
      }
      var hasId, _ := FindValue(json, ['"'] + ("backupId" + ['"']));
      if !hasId {
        return BadRequest("Missing required field: backupId");
      }
      var hasTime, _ := FindValue(json, ['"'] + ("timestamp" + ['"']));
      if !hasTime {
        return BadRequest("Missing required field: timestamp");
      }
      var thrown := Assign(json);
      status := if thrown then Thrown
                else if backupId == "" then BadRequest("backupId cannot be empty")
                else if timestamp == "" then BadRequest("timestamp cannot be empty")
                else Success;
    }
  }

  // ---------- where the markers are ----------

  /** The field names, which no gap and no other field can be taken for. */
  ghost predicate IsName(name: string) {
    name != [] && '"' !in name && name[0] != ',' && name[0] != ':' && name[0] != '\n'
  }

  /** Where a quoted text and what is behind it lie. */
  lemma QuotedLies(s: string, i: nat, u: string, rest: string)
    requires i <= |s| && s[i..] == ['"'] + (u + (['"'] + rest))
    ensures var close := i + 1 + |u|;
            && close < |s| && s[i] == '"' && s[i + 1..close] == u && s[close] == '"' && s[close + 1..] == rest
  {
    OpeningLies(s, i, u, ['"'] + rest);
    SplitReads(s, i + 1 + |u|, ['"'], rest);
    assert s[i + 1 + |u|] == s[i + 1 + |u|..i + 1 + |u| + 1][0];
  }

  /** What the helpers' markers have in common. */
  ghost predicate IsMarker(w: string, field: string) {
    && '"' !in field && |w| >= |field| + 3 && w[0] == '"' && w[1..1 + |field|] == field
    && w[1 + |field|] == '"' && w[2 + |field|] == ':'
  }

  lemma MarkerIsMarker(field: string, open: string)
    requires '"' !in field
    ensures IsMarker(Marker(field, open), field)
  {
    var w := Marker(field, open);
    assert w[1..] == field + (COLON + open);
    assert w[1..][..|field|] == field;
  }

  /** A marker found at a quoted text has the text for its field, and a colon behind it. */
  lemma MarkerMatches(s: string, i: nat, u: string, rest: string, field: string, w: string)
    requires i <= |s| && s[i..] == ['"'] + (u + (['"'] + rest)) && '"' !in u
    requires IsMarker(w, field) && WordAt(s, w, i)
    ensures u == field && rest != [] && rest[0] == ':'
  {
    QuotedLies(s, i, u, rest);
    var close := i + 1 + |u|;
    var end := i + 1 + |field|;
    SliceOfSlice(s, i, |w|, 1, 1 + |field|);
    assert s[i + 1..end] == field;
    assert s[end] == s[i..i + |w|][1 + |field|] && s[end + 1] == s[i..i + |w|][2 + |field|];
    FindIs(s, '"', i + 1, close);
    FindIs(s, '"', i + 1, end);
    assert s[close + 1] == s[close + 1..][0];
  }

  /** A quoted text that is not the field, or not followed by a colon, is passed over. */
  lemma PassesQuoted(s: string, i: nat, u: string, rest: string, field: string, w: string)
    requires i <= |s| && s[i..] == ['"'] + (u + (['"'] + rest)) && '"' !in u && IsName(field) && IsMarker(w, field)
    requires rest != [] && rest[0] != field[0] && (u != field || rest[0] != ':')
    ensures var j := i + 2 + |u|; j <= |s| && Clear(s, w, i, j) && s[j..] == rest
  {
    var close := i + 1 + |u|;
    QuotedLies(s, i, u, rest);
    if WordAt(s, w, i) { MarkerMatches(s, i, u, rest, field, w); }
    ClearGap(s, w, i + 1, close);
    assert s[close + 1] == s[close + 1..][0];
    assert w[1] == w[1..1 + |field|][0];
    OtherSecond(s, w, close);
  }

  lemma ColonGap(body: string)
    ensures COLON + body == ['"'] + (GAP + body)
    ensures |GAP| == 2 && GAP + body != [] && (GAP + body)[0] == ':' && '"' !in GAP
  {
  }

  lemma PassesName(s: string, i: nat, name: string, body: string, field: string, w: string) returns (j: nat)
    requires i <= |s| && s[i..] == "  " + (['"'] + (name + (COLON + body)))
    requires IsName(field) && IsMarker(w, field) && '"' !in name && name != field
    ensures i <= j <= |s| && Clear(s, w, i, j) && s[j..] == body
  {
    var behind := GAP + body;
    ColonGap(body);
    PassesGap(s, i, "  ", ['"'] + (name + (['"'] + behind)), w);
    PassesQuoted(s, i + 2, name, behind, field, w);
    j := i + 2 + 2 + |name|;
    PassesGap(s, j, GAP, body, w);
    j := j + |GAP|;
  }

  lemma PassesBody(s: string, i: nat, f: Field, rest: string, field: string, w: string) returns (j: nat)
    requires i <= |s| && s[i..] == Body(f, rest)
    requires IsName(field) && IsMarker(w, field) && '"' !in f.value && EndsField(rest)
    ensures i <= j <= |s| && Clear(s, w, i, j) && s[j..] == rest
  {
    if f.Str? {
      PassesQuoted(s, i, f.value, rest, field, w);
      j := i + 2 + |f.value|;
    } else {
      PassesGap(s, i, f.value, rest, w);
      j := i + |f.value|;
    }
  }

  /** A field of another name is passed over, whatever its value. */
  lemma PassesField(s: string, i: nat, f: Field, rest: string, field: string, w: string) returns (j: nat)
    requires i <= |s| && s[i..] == FieldText(f, rest)
    requires IsName(field) && IsMarker(w, field) && '"' !in f.name && f.name != field && '"' !in f.value
    requires EndsField(rest)
    ensures i <= j <= |s| && Clear(s, w, i, j) && s[j..] == rest
  {
    j := PassesName(s, i, f.name, Body(f, rest), field, w);
    j := PassesBody(s, j, f, rest, field, w);
  }

  /** From position i on, w first occurs where it leads to the text v, which lies at p. */
  ghost predicate FoundAt(s: string, i: nat, w: string, v: string, p: nat) {
    i + |w| <= p <= |s| && Clear(s, w, i, p - |w|) && WordAt(s, w, p - |w|) && s[p..] == v
  }

  lemma FoundEarlier(s: string, i: nat, j: nat, w: string, v: string, p: nat)
    requires i <= j && Clear(s, w, i, j) && FoundAt(s, j, w, v, p)
    ensures FoundAt(s, i, w, v, p)
  {
  }

  lemma MarkerLeads(name: string, open: string, v: string)
    ensures ['"'] + (name + (COLON + (open + v))) == Marker(name, open) + v
  {
    PushIn(COLON, open, v);
    PushIn(name, COLON + open, v);
    PushIn(['"'], name + (COLON + open), v);
  }

  /** The marker w of a field leads to the text v. */
  ghost predicate Leads(f: Field, rest: string, w: string, v: string) {
    IsMarker(w, f.name) && FieldText(f, rest) == "  " + (w + v)
  }

  /** The field itself is found at its opening quote. */
  lemma HitsField(s: string, i: nat, f: Field, rest: string, w: string, v: string)
    requires i <= |s| && s[i..] == FieldText(f, rest) && Leads(f, rest, w, v)
    ensures FoundAt(s, i, w, v, i + 2 + |w|)
  {
    PassesGap(s, i, "  ", w + v, w);
    SplitReads(s, i + 2, w, v);
  }

  /** A field that cannot be taken for the named one: it has another name, and no quote in its value. */
  ghost predicate IsOther(f: Field, name: string) {
    IsName(f.name) && f.name != name && '"' !in f.value
  }

  lemma RendersOn(fields: seq<Field>)
    requires |fields| > 1
    ensures Render(fields) == FieldText(fields[0], ",\n" + Render(fields[1..]))
  {
  }

  lemma PassesFieldAndComma(s: string, i: nat, f: Field, behind: string, field: string, w: string) returns (j: nat)
    requires i <= |s| && s[i..] == FieldText(f, ",\n" + behind) && IsName(field) && IsMarker(w, field)
    requires IsOther(f, field)
    ensures i <= j <= |s| && Clear(s, w, i, j) && s[j..] == behind
  {
    var comma := PassesField(s, i, f, ",\n" + behind, field, w);
    PassesGap(s, comma, ",\n", behind, w);
    j := comma + 2;
  }

  /** The first field, having another name, is passed over up to the field behind it. */
  lemma NextField(s: string, i: nat, fields: seq<Field>, field: string, w: string) returns (j: nat)
    requires |fields| > 1 && i <= |s| && s[i..] == Render(fields) && IsName(field) && IsMarker(w, field)
    requires IsOther(fields[0], field)
    ensures i <= j <= |s| && Clear(s, w, i, j) && s[j..] == Render(fields[1..])
  {
    RendersOn(fields);
    j := PassesFieldAndComma(s, i, fields[0], Render(fields[1..]), field, w);
  }

  /** Fields of other names are passed over, up to the k-th. */
  lemma {:induction false} PassesAhead(s: string, i: nat, fields: seq<Field>, k: nat, tail: seq<Field>,
                                       field: string, w: string) returns (j: nat)
    requires k < |fields| && tail == fields[k..]
    requires i <= |s| && s[i..] == Render(fields) && IsName(field) && IsMarker(w, field)
    requires forall m :: 0 <= m < k ==> IsOther(fields[m], field)
    ensures i <= j <= |s| && Clear(s, w, i, j) && s[j..] == Render(tail)
    decreases k
  {
    hide IsMarker, IsName, Render, Clear;
    if k == 0 {
      j := i;
      assert tail == fields;
      ClearNothing(s, w, i);
    } else {
      var from := fields[k - 1..];
      var before := PassesAhead(s, i, fields, k - 1, from, field, w);
      assert from[1..] == tail && from[0] == fields[k - 1];
      j := NextField(s, before, from, field, w);
      ClearOn(s, w, i, before, j);
    }
  }

  /** Every field's first marker is the structural one: its value is found where it was printed. */
  lemma FindsField(s: string, i: nat, fields: seq<Field>, k: nat, w: string, v: string) returns (p: nat)
    requires k < |fields| && i <= |s| && s[i..] == Render(fields) && IsName(fields[k].name)
    requires forall m :: 0 <= m < k ==> IsOther(fields[m], fields[k].name)
    requires Leads(fields[k], Behind(fields[k..]), w, v)
    ensures FoundAt(s, i, w, v, p)
  {
    var j := PassesAhead(s, i, fields, k, fields[k..], fields[k].name, w);
    HitsField(s, j, fields[k], Behind(fields[k..]), w, v);
    p := j + 2 + |w|;
    FoundEarlier(s, i, j, w, v, p);
  }

  lemma FoundIsValue(s: string, field: string, open: string, v: string, p: nat)
    requires FoundAt(s, 0, Marker(field, open), v, p)
    ensures p <= |s| && s[p..] == v && ValueOf(s, field, open) == At(p)
  {
    var w := Marker(field, open);
    FindWordIs(s, w, 0, p - |w|);
  }

  // ---------- round trip ----------

  /** The manifests the format can carry. */
  ghost predicate Printable(m: Manifest) {
    && '"' !in m.backupId && '"' !in m.timestamp && '"' !in m.version && '"' !in m.path
    && (forall i :: 0 <= i < |m.collections| ==> '"' !in m.collections[i] && ']' !in m.collections[i])
    && m.backupId != "" && m.timestamp != ""
  }

  function Initial(j: nat): char
    requires j < 7
  {
    if j == 0 then 'b' else if j == 1 then 't' else if j == 2 then 'v' else if j == 3 then 's'
    else if j == 4 then 'p' else if j == 5 then 'i' else 'c'
  }

  function Name(j: nat): (name: string)
    requires j < 7
    ensures IsName(name) && name[0] == Initial(j)
  {
    if j == 0 then "backupId" else if j == 1 then "timestamp" else if j == 2 then "version"
    else if j == 3 then "sequenceNumber" else if j == 4 then "path" else if j == 5 then "isConsistent"
    else "collections"
  }

  /** The seven names begin differently. */
  lemma FieldNames(m: Manifest)
    ensures forall j :: 0 <= j < 7 ==> IsName(Fields(m)[j].name)
    ensures forall j, k :: 0 <= j < k < 7 ==> Fields(m)[j].name != Fields(m)[k].name
  {
    forall j | 0 <= j < 7 ensures IsName(Fields(m)[j].name) && Fields(m)[j].name[0] == Initial(j) {
      assert Fields(m)[j].name == Name(j);
    }
    forall j, k | 0 <= j < k < 7 ensures Fields(m)[j].name != Fields(m)[k].name {
      assert Initial(j) != Initial(k);
    }
  }

  lemma NoQuoteAhead(m: Manifest, k: nat)
    requires Printable(m) && k < 7
    ensures forall j :: 0 <= j < k ==> IsOther(Fields(m)[j], Fields(m)[k].name)
  {
    FieldNames(m);
    assert '"' !in Digits(m.sequenceNumber) && '"' !in BoolText(m.isConsistent);
  }

  /** Field k of a printed manifest is found, and its value begins with v. */
  lemma ValueFound(m: Manifest, k: nat, open: string, v: string) returns (p: nat)
    requires Printable(m) && k < 7 && Body(Fields(m)[k], Behind(Fields(m)[k..])) == open + v
    ensures ValueOf(ToJson(m), Fields(m)[k].name, open) == At(p)
    ensures p <= |ToJson(m)| && ToJson(m)[p..] == v
  {
    var s, fields := ToJson(m), Fields(m);
    var f := fields[k];
    FieldNames(m);
    NoQuoteAhead(m, k);
    var w := Marker(f.name, open);
    MarkerIsMarker(f.name, open);
    MarkerLeads(f.name, open, v);
    PassesGap(s, 0, "{\n", Render(fields), w);
    p := FindsField(s, 2, fields, k, w, v);
    FoundEarlier(s, 0, 2, w, v, p);
    FoundIsValue(s, f.name, open, v, p);
  }

  ghost predicate HoldsString(json: string, name: string, value: string) {
    HasField(json, name) && ExtractString(json, name) == value
  }

  lemma KeyIsPrefix(field: string, open: string)
    ensures ['"'] + (field + ['"']) <= Marker(field, open)
  {
    PushIn(['"'], field, ['"']);
    PushIn(['"'] + field, ['"'], GAP + open);
    ColonGap(open);
    PushIn(['"'], field, COLON + open);
  }

  /** Text up to the first c. */
  lemma ReadsUpTo(s: string, p: nat, a: string, c: char, rest: string)
    requires p <= |s| && s[p..] == a + ([c] + rest) && c !in a
    ensures var end := Find(s, c, p); end < |s| && s[p..end] == a
  {
    SplitReads(s, p, a, [c] + rest);
    assert s[p + |a|] == s[p + |a|..][0];
    FindIs(s, c, p, p + |a|);
  }

  lemma StringFound(m: Manifest, k: nat, name: string, value: string)
    requires Printable(m) && k < 7 && Fields(m)[k] == Str(name, value) && '"' !in value
    ensures HoldsString(ToJson(m), name, value)
  {
    var s, rest := ToJson(m), Behind(Fields(m)[k..]);
    var p := ValueFound(m, k, ['"'], value + (['"'] + rest));
    ReadsUpTo(s, p, value, '"', rest);
    KeyIsPrefix(name, ['"']);
    FindsPrefix(s, ['"'] + (name + ['"']), Marker(name, ['"']), 0);
  }

  lemma ReadsNumber(s: string, field: string, p: nat, n: U64, rest: string)
    requires ValueOf(s, field, "") == At(p) && p <= |s| && s[p..] == Digits(n) + rest && EndsField(rest)
    ensures ExtractUint64(s, field) == Parsed(n)
  {
    var end := p + |Digits(n)|;
    SplitReads(s, p, Digits(n), rest);
    assert s[end] == s[end..][0];
    DigitEndIs(s, p, end);
    StoULLOfDigits(n);
  }

  lemma NumberFound(m: Manifest)
    requires Printable(m)
    ensures ExtractUint64(ToJson(m), "sequenceNumber") == Parsed(m.sequenceNumber)
  {
    var rest := Behind(Fields(m)[3..]);
    var p := ValueFound(m, 3, "", Digits(m.sequenceNumber) + rest);
    ReadsNumber(ToJson(m), "sequenceNumber", p, m.sequenceNumber, rest);
  }

  lemma ReadsBool(s: string, p: nat, b: bool, rest: string)
    requires p <= |s| && s[p..] == BoolText(b) + rest
    ensures WordAt(s, "true", p) <==> b
  {
    SplitReads(s, p, BoolText(b), rest);
    if !b {
      assert s[p] == s[p..p + |BoolText(b)|][0];
      OtherStart(s, "true", p);
    }
  }

  lemma BoolFound(m: Manifest)
    requires Printable(m)
    ensures ExtractBool(ToJson(m), "isConsistent") == m.isConsistent
  {
    var rest := Behind(Fields(m)[5..]);
    var p := ValueFound(m, 5, "", BoolText(m.isConsistent) + rest);
    ReadsBool(ToJson(m), p, m.isConsistent, rest);
  }

  lemma {:induction false} NoBracketInItems(first: bool, names: seq<string>)
    requires forall i :: 0 <= i < |names| ==> ']' !in names[i]
    ensures ']' !in Items(first, names)
  {
    if names != [] { NoBracketInItems(false, names[1..]); }
  }

  /** Where a printed name opens, closes and ends. */
  lemma ItemCloses(content: string, open: nat, name: string, rest: string)
    requires open <= |content| && content[open..] == ['"'] + (name + (['"'] + rest)) && '"' !in name
    ensures open + 1 + |name| < |content| && Find(content, '"', open + 1) == open + 1 + |name|
    ensures content[open + 1..open + 1 + |name|] == name && content[open + 2 + |name|..] == rest
  {
    QuotedLies(content, open, name, rest);
    FindIs(content, '"', open + 1, open + 1 + |name|);
  }

  lemma ItemOpens(content: string, i: nat, sep: string, behind: string)
    requires i <= |content| && content[i..] == sep + (['"'] + behind) && '"' !in sep
    ensures i + |sep| < |content| && Find(content, '"', i) == i + |sep| && content[i + |sep|..] == ['"'] + behind
  {
    SplitReads(content, i, sep, ['"'] + behind);
    assert content[i + |sep|] == content[i + |sep|..][0];
    FindIs(content, '"', i, i + |sep|);
  }

  /** The first printed name: where it is read, and what is left to read. */
  lemma ParsesItem(content: string, i: nat, first: bool, names: seq<string>) returns (open: nat, close: nat)
    requires i <= |content| && names != [] && content[i..] == Items(first, names) && '"' !in names[0]
    ensures open == Find(content, '"', i) < |content| && close == Find(content, '"', open + 1) < |content|
    ensures content[open + 1..close] == names[0] && content[close + 1..] == Items(false, names[1..])
  {
    var sep := if first then "" else ", ";
    var rest := Items(false, names[1..]);
    ItemOpens(content, i, sep, names[0] + (['"'] + rest));
    open := i + |sep|;
    ItemCloses(content, open, names[0], rest);
    close := open + 1 + |names[0]|;
  }

  ghost predicate NoQuotes(names: seq<string>) {
    names == [] || ('"' !in names[0] && NoQuotes(names[1..]))
  }

  lemma {:induction false} NoneIsNoQuotes(names: seq<string>)
    requires forall i :: 0 <= i < |names| ==> '"' !in names[i]
    ensures NoQuotes(names)
  {
    if names != [] { NoneIsNoQuotes(names[1..]); }
  }

  lemma ParsesOn(content: string, i: nat, open: nat, close: nat, names: seq<string>)
    requires i <= |content| && open == Find(content, '"', i) < |content|
    requires close == Find(content, '"', open + 1) < |content| && names != []
    requires content[open + 1..close] == names[0] && ParseItems(content, close + 1) == names[1..]
    ensures ParseItems(content, i) == names
  {
    ParseMore(content, i, open, close);
    assert names == [names[0]] + names[1..];
  }

  lemma ParsesNothing(content: string, i: nat)
    requires i == |content|
    ensures ParseItems(content, i) == []
  {
  }

  lemma {:induction false} ParsesItems(content: string, i: nat, first: bool, names: seq<string>)
    requires i <= |content| && content[i..] == Items(first, names) && NoQuotes(names)
    ensures ParseItems(content, i) == names
    decreases |names|
  {
    hide Find, ParseItems;
    if names == [] {
      assert i == |content|;
      ParsesNothing(content, i);
    } else {
      var open, close := ParsesItem(content, i, first, names);
      ParsesItems(content, close + 1, false, names[1..]);
      ParsesOn(content, i, open, close, names);
    }
  }

  lemma ListFound(m: Manifest)
    requires Printable(m)
    ensures ExtractArray(ToJson(m), "collections") == m.collections
  {
    var json, items := ToJson(m), Items(true, m.collections);
    PushIn("[", items + "]", END);
    PushIn(items, "]", END);
    var p := ValueFound(m, 6, "[", items + ("]" + END));
    NoBracketInItems(true, m.collections);
    ReadsUpTo(json, p, items, ']', END);
    NoneIsNoQuotes(m.collections);
    ParsesItems(items, 0, true, m.collections);
  }

  lemma IdFound(m: Manifest)
    requires Printable(m)
    ensures HoldsString(ToJson(m), "backupId", m.backupId)
  {
    StringFound(m, 0, "backupId", m.backupId);
  }

  lemma TimestampFound(m: Manifest)
    requires Printable(m)
    ensures HoldsString(ToJson(m), "timestamp", m.timestamp)
  {
    StringFound(m, 1, "timestamp", m.timestamp);
  }

  lemma VersionFound(m: Manifest)
    requires Printable(m)
    ensures HoldsString(ToJson(m), "version", m.version)
  {
    StringFound(m, 2, "version", m.version);
  }

  lemma PathFound(m: Manifest)
    requires Printable(m)
    ensures HoldsString(ToJson(m), "path", m.path)
  {
    StringFound(m, 4, "path", m.path);
  }

  /** A text that holds all the fields is accepted. */
  lemma Accepts(json: string, before: Manifest, n: U64)
    requires json != "" && HasField(json, "backupId") && HasField(json, "timestamp")
    requires ExtractString(json, "backupId") != "" && ExtractString(json, "timestamp") != ""
    requires ExtractUint64(json, "sequenceNumber") == Parsed(n)
    ensures FromJson(json, before) == (Success, Extracted(json, n))
  {
  }

  /** Parsing what was printed gives the manifest back, whatever the output held before. */
  lemma PrintedIsParsed(m: Manifest, before: Manifest)
    requires Printable(m)
    ensures FromJson(ToJson(m), before) == (Success, m)
  {
    IdFound(m);
    TimestampFound(m);
    VersionFound(m);
    PathFound(m);
    NumberFound(m);
    BoolFound(m);
    ListFound(m);
    Accepts(ToJson(m), before, m.sequenceNumber);
  }

  /** What the helpers extract: no quote in a string or a name, no bracket in a name. */
  lemma StringHasNoQuote(json: string, field: string)
    ensures '"' !in ExtractString(json, field)
  {
    match ValueOf(json, field, ['"'])
    case Missing =>
    case At(pos) => NoneBefore(json, '"', pos);
  }

  lemma {:induction false} ItemsAreClean(content: string, i: nat)
    requires i <= |content| && ']' !in content
    ensures forall j :: 0 <= j < |ParseItems(content, i)| ==>
      '"' !in ParseItems(content, i)[j] && ']' !in ParseItems(content, i)[j]
    decreases |content| - i
  {
    var open := Find(content, '"', i);
    if open < |content| {
      var close := Find(content, '"', open + 1);
      NoneBefore(content, '"', open + 1);
      if close < |content| { ItemsAreClean(content, close + 1); }
    }
  }

  lemma NamesAreClean(json: string, field: string)
    ensures var names := ExtractArray(json, field);
      forall j :: 0 <= j < |names| ==> '"' !in names[j] && ']' !in names[j]
  {
    match ValueOf(json, field, "[")
    case Missing =>
    case At(pos) =>
      var end := Find(json, ']', pos);
      NoneBefore(json, ']', pos);
      ItemsAreClean(json[pos..end], 0);
  }

  /** Whatever text is parsed with success, the manifest is one the format can carry. */
  lemma ParsedIsPrintable(json: string, before: Manifest)
    requires FromJson(json, before).0 == Success
    ensures Printable(FromJson(json, before).1)
  {
    StringHasNoQuote(json, "backupId");
    StringHasNoQuote(json, "timestamp");
    StringHasNoQuote(json, "version");
    StringHasNoQuote(json, "path");
    NamesAreClean(json, "collections");
  }

  /** A manifest survives the round trip exactly when the format can carry it. */
  lemma RoundTripIff(m: Manifest, before: Manifest)
    ensures FromJson(ToJson(m), before) == (Success, m) <==> Printable(m)
  {
    if Printable(m) {
      PrintedIsParsed(m, before);
    } else if FromJson(ToJson(m), before) == (Success, m) {
      ParsedIsPrintable(ToJson(m), before);
      assert false;
    }
  }

  /** Reading and printing again changes nothing more: the second reading is the first. */
  lemma ReprintIsStable(json: string, before: Manifest, again: Manifest)
    requires FromJson(json, before).0 == Success
    ensures FromJson(ToJson(FromJson(json, before).1), again) == FromJson(json, before)
  {
    ParsedIsPrintable(json, before);
    PrintedIsParsed(FromJson(json, before).1, again);
  }
}
