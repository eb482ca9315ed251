/** The text of property queries, `src/propertyquery.cpp`: parsed into a flat list of parts. */
module PropertyQuery {
  import opened Exceptions
  import opened SplitString
  import opened Strings

  datatype KeyValue = KeyValue(name: string, value: string)

  datatype Part = Part(name: string, properties: seq<KeyValue>, child: bool)

  // --- What parsing computes --------------------------------------------------------------

  datatype Eval = Eval(key: string, items: seq<string>, rest: string)

  /** One key of a path component, the texts in its brackets, and what follows the next comma. */
  function EvalKey(input: string): (r: Result<Eval>)
    ensures r.Ok? ==> |r.value.rest| < |input| || r.value.rest == ""
  {
    var found := FoundUnescaped(input, ',', 0);
    var t, colon := found.text, found.pos;
    var bracket := Find(t, '(');
    if colon < |t| && colon < bracket then Ok(Eval(t[..colon], [], t[colon + 1..]))
    else if bracket == |t| then Ok(Eval(t, [], ""))
    else
      var end := Find(t, ')');
      if end == |t| then Throw(RuntimeError)
      else Ok(Eval(t[..bracket], Split(Bracketed(t, bracket, end), ',', true), BehindComma(t, end)))
  }

  /** A closing bracket before the opening one makes the length of the substring wrap around. */
  function Bracketed(t: string, bracket: nat, end: nat): string
    requires bracket < |t| && end < |t|
  {
    if bracket < end then t[bracket + 1..end] else t[bracket + 1..]
  }

  function BehindComma(t: string, end: nat): (rest: string)
    requires end < |t|
    ensures |rest| < |t|
  {
    var found := FoundUnescaped(t, ',', end);
    if found.pos < |found.text| then found.text[found.pos + 1..]
    else if end + 1 <= |found.text| then found.text[end + 1..] else ""
  }

  function PairOf(item: string): Result<KeyValue> {
    var data := Split(item, '=', true);
    if |data| >= 2 then Ok(KeyValue(data[0], data[1]))
    else if |data| == 1 then Ok(KeyValue(data[0], ""))
    else Throw(OutOfRange)
  }

  function PairsOf(items: seq<string>): Result<seq<KeyValue>> {
    if items == [] then Ok([])
    else
      var pair :- PairOf(items[0]);
      var more :- PairsOf(items[1..]);
      Ok([pair] + more)
  }

  /** The parts of one path component; only the first is a child of what comes before. */
  function PartsOf(component: string, child: bool): Result<seq<Part>>
    decreases |component|
  {
    var eval :- EvalKey(component);
    var properties :- PairsOf(eval.items);
    var part := Part(eval.key, properties, child);
    if eval.rest == "" then Ok([part])
    else
      var more :- PartsOf(eval.rest, false);
      Ok([part] + more)
  }

  function AllParts(components: seq<string>): Result<seq<Part>> {
    if components == [] then Ok([])
    else
      var parts :- PartsOf(components[0], true);
      var more :- AllParts(components[1..]);
      Ok(parts + more)
  }

  /** Erasing the first element of an empty vector is undefined. */
  function Parsed(query: string, trailingSeparator: bool): Result<seq<Part>> {
    var parts :- AllParts(Split(query, '/'));
    if !trailingSeparator then Ok(parts) else if parts == [] then Throw(UndefinedBehaviour) else Ok(parts[1..])
  }

  function Pushed<T>(before: seq<T>, more: Result<seq<T>>): Result<seq<T>> {
    var m :- more; Ok(before + m)
  }

  lemma PartsPushed(before: seq<Part>, component: string, child: bool)
    ensures Pushed(before, PartsOf(component, child)) ==
      var eval :- EvalKey(component);
      var properties :- PairsOf(eval.items);
      var now := before + [Part(eval.key, properties, child)];
      if eval.rest == "" then Ok(now) else Pushed(now, PartsOf(eval.rest, false))
  {
    hide EvalKey, PairsOf;
    var eval := EvalKey(component);
    if eval.Ok? {
      var properties, more := PairsOf(eval.value.items), PartsOf(eval.value.rest, false);
      if properties.Ok? && more.Ok? {
        var part := Part(eval.value.key, properties.value, child);
        assert before + [part] + more.value == before + ([part] + more.value);
      }
    }
  }

  lemma ComponentPushed(before: seq<Part>, components: seq<string>)
    requires components != []
    ensures Pushed(before, AllParts(components)) ==
      var now :- Pushed(before, PartsOf(components[0], true));
      Pushed(now, AllParts(components[1..]))
  {
    hide PartsOf;
    var parts, more := PartsOf(components[0], true), AllParts(components[1..]);
    if parts.Ok? && more.Ok? {
      assert before + parts.value + more.value == before + (parts.value + more.value);
    }
  }

  lemma PairPushed(before: seq<KeyValue>, items: seq<string>)
    requires items != []
    ensures Pushed(before, PairsOf(items)) ==
      var pair :- PairOf(items[0]);
      Pushed(before + [pair], PairsOf(items[1..]))
  {
    hide PairOf;
    var pair, more := PairOf(items[0]), PairsOf(items[1..]);
    if pair.Ok? && more.Ok? {
      assert before + [pair.value] + more.value == before + ([pair.value] + more.value);
    }
  }

  lemma NothingPushed<T>(before: seq<T>, more: Result<seq<T>>)
    ensures Pushed([], more) == more && Pushed(before, Ok([])) == Ok(before)
  {
    assert more.Ok? ==> [] + more.value == more.value;
    assert before + [] == before;
  }

  // --- The code ---------------------------------------------------------------------------

  class Query {
    var query: string
    var partList: seq<Part>

    constructor (query: string)
      ensures this.query == query && partList == []
    {
      this.query := query;
      partList := [];
    }

    /** evalPropertyList; the key and what is left of the input are results. */
    static method EvalPropertyList(input: string) returns (r: Result<Eval>)
      ensures r == EvalKey(input)
    {
      hide FoundUnescaped, Split;
      var text, colonPos := FindAndUnescape(input, ',', 0);
      assert FoundUnescaped(input, ',', 0) == Found(text, colonPos);
      var bracketPos := Find(text, '(');
      if colonPos < |text| && colonPos < bracketPos {
        return Ok(Eval(text[..colonPos], [], text[colonPos + 1..]));
      }
      var key := text[..bracketPos];
      if bracketPos == |text| {
        assert key == text;
        return Ok(Eval(key, [], ""));
      }
      var bracketEndPos := Find(text, ')');
      if bracketEndPos == |text| {
        return Throw(RuntimeError);
      }
      var propListStr := Bracketed(text, bracketPos, bracketEndPos);
      var rest, eraseEnd := FindAndUnescape(text, ',', bracketEndPos);
      assert FoundUnescaped(text, ',', bracketEndPos) == Found(rest, eraseEnd);
      if eraseEnd == |rest| {
        eraseEnd := bracketEndPos + 1;   // the bracket
      } else {
        eraseEnd := eraseEnd + 1;        // the comma
      }
      rest := if eraseEnd <= |rest| then rest[eraseEnd..] else "";
      var items := SplitFields(propListStr, ',', true);
      return Ok(Eval(key, items, rest));
    }

    static method SplitKeyValue(input: seq<string>) returns (r: Result<seq<KeyValue>>)
      ensures r == PairsOf(input)
    {
      hide Pushed, PairsOf, Split;
      var output := [];
      var i := 0;
      assert input[0..] == input;
      NothingPushed(output, PairsOf(input));
      while i < |input|
        invariant 0 <= i <= |input|
        invariant PairsOf(input) == Pushed(output, PairsOf(input[i..]))
      {
        var item := input[i];
        assert input[i..][1..] == input[i + 1..];
        PairPushed(output, input[i..]);
        var data := SplitFields(item, '=', true);
        if |data| >= 2 {
          output := output + [KeyValue(data[0], data[1])];
        } else if |data| == 1 {
          output := output + [KeyValue(data[0], "")];
        } else {
          return Throw(OutOfRange);
        }
        i := i + 1;
      }
      NoPairs(input[i..]);
      NothingPushed(output, PairsOf([]));
      return Ok(output);
    }

    /** The inner loop of parseParts. */
    method ParseComponent(component: string) returns (r: Result<()>)
      modifies this`partList
      ensures match PartsOf(component, true)
              case Ok(parts) => r == Ok(()) && partList == old(partList) + parts
              case Throw(e) => r == Throw(e)
    {
      hide EvalKey, PairsOf, PartsOf;
      var part, child := component, true;
      while true
        invariant Pushed(old(partList), PartsOf(component, true)) == Pushed(partList, PartsOf(part, child))
        decreases |part|
      {
        PartsPushed(partList, part, child);
        var eval :- EvalPropertyList(part);
        var container :- SplitKeyValue(eval.items);
        partList := partList + [Part(eval.key, container, child)];
        child := false;
        part := eval.rest;
        if part == "" {
          return Ok(());
        }
      }
    }

    /** A call that throws leaves the parts pushed before it behind. */
    method ParseParts(trailingSeparator: bool) returns (r: Result<()>)
      requires partList == []
      modifies this`partList
      ensures match Parsed(query, trailingSeparator)
              case Ok(parts) => r == Ok(()) && partList == parts
              case Throw(e) => r == Throw(e)
    {
      hide Split, PartsOf, AllParts;
      var parts := SplitFields(query, '/', false);
      var i := 0;
      assert parts[0..] == parts;
      NothingPushed(partList, AllParts(parts));
      while i < |parts|
        invariant 0 <= i <= |parts|
        invariant Pushed(partList, AllParts(parts[i..])) == AllParts(parts)
      {
        assert parts[i..][1..] == parts[i + 1..];
        ComponentPushed(partList, parts[i..]);
        var _ :- ParseComponent(parts[i]);
        i := i + 1;
      }
      NoComponents(parts[i..]);
      if trailingSeparator {
        if partList == [] {
          return Throw(UndefinedBehaviour);
        }
        partList := partList[1..];
      }
      return Ok(());
    }
  }

  lemma NoPairs(items: seq<string>)
    requires items == []
    ensures PairsOf(items) == Ok([])
  {
  }

  lemma NoComponents(components: seq<string>)
    requires components == []
    ensures AllParts(components) == Ok([])
  {
  }
}
