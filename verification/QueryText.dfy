/** Property queries as data: how they are printed, and that parsing reads them back. */
module QueryText {
  import opened Exceptions
  import opened PropertyQuery
  import opened SplitString
  import opened Strings

  /** A key of a path component with the properties in its brackets. */
  datatype Key = Key(name: string, properties: seq<KeyValue>)

  type Component = seq<Key>

  // --- Printing ---------------------------------------------------------------------------

  function PrintPair(p: KeyValue): string {
    if p.value == "" then p.name else p.name + ("=" + p.value)
  }

  function PrintPairs(ps: seq<KeyValue>): (r: seq<string>)
    ensures |r| == |ps| && forall i | 0 <= i < |ps| :: r[i] == PrintPair(ps[i])
  {
    hide PrintPair;
    if ps == [] then [] else [PrintPair(ps[0])] + PrintPairs(ps[1..])
  }

  function PrintKey(k: Key): string {
    if k.properties == [] then k.name
    else k.name + ("(" + (Join(PrintPairs(k.properties), ",") + ")"))
  }

  function PrintKeys(c: Component): (r: seq<string>)
    ensures |r| == |c| && forall i | 0 <= i < |c| :: r[i] == PrintKey(c[i])
  {
    hide PrintKey;
    if c == [] then [] else [PrintKey(c[0])] + PrintKeys(c[1..])
  }

  function PrintComponent(c: Component): string {
    Join(PrintKeys(c), ",")
  }

  function PrintComponents(q: seq<Component>): (r: seq<string>)
    ensures |r| == |q| && forall i | 0 <= i < |q| :: r[i] == PrintComponent(q[i])
  {
    if q == [] then [] else [PrintComponent(q[0])] + PrintComponents(q[1..])
  }

  function PrintQuery(q: seq<Component>): string {
    Join(PrintComponents(q), "/")
  }

  // --- Plain queries ----------------------------------------------------------------------

  predicate Plain(s: string) {
    Free(s, {'/', ',', '(', ')', '=', '\\'})
  }

  predicate PlainPair(p: KeyValue) {
    Plain(p.name) && Plain(p.value) && IsTrimmed(p.name) && IsTrimmed(p.value)
  }

  predicate PlainKey(k: Key) {
    Plain(k.name) && forall p | p in k.properties :: PlainPair(p)
  }

  predicate PlainComponent(c: Component) {
    c != [] && forall i | 0 <= i < |c| :: PlainKey(c[i])
  }

  predicate PlainQuery(q: seq<Component>) {
    q != [] && forall i | 0 <= i < |q| :: PlainComponent(q[i])
  }

  /** The parts of a query: the first key of each component is a child of what comes before. */
  function Flatten(q: seq<Component>): seq<Part> {
    if q == [] then [] else FlattenComponent(q[0], true) + Flatten(q[1..])
  }

  function FlattenComponent(c: Component, child: bool): seq<Part> {
    if c == [] then [] else [Part(c[0].name, c[0].properties, child)] + FlattenComponent(c[1..], false)
  }

  // --- What parsing makes of a printed query ----------------------------------------------

  function PairsRead(ps: seq<KeyValue>): Result<seq<KeyValue>> {
    if ps == [] then Ok([])
    else if PrintPair(ps[0]) == "" then Throw(OutOfRange)
    else
      var more :- PairsRead(ps[1..]);
      Ok([ps[0]] + more)
  }

  /** A single empty property leaves empty brackets. */
  function PropertiesRead(ps: seq<KeyValue>): Result<seq<KeyValue>> {
    if |ps| == 1 && PrintPair(ps[0]) == "" then Ok([]) else PairsRead(ps)
  }

  /** Nothing is read behind a comma that ends the component. */
  function ComponentRead(c: Component, child: bool): Result<seq<Part>>
    requires c != []
    decreases |c|
  {
    var properties :- PropertiesRead(c[0].properties);
    var part := Part(c[0].name, properties, child);
    if |c| == 1 || (|c| == 2 && PrintKey(c[1]) == "") then Ok([part])
    else
      var more :- ComponentRead(c[1..], false);
      Ok([part] + more)
  }

  function ComponentsRead(q: seq<Component>): Result<seq<Part>>
    requires forall i | 0 <= i < |q| :: q[i] != []
  {
    if q == [] then Ok([])
    else
      var parts :- ComponentRead(q[0], true);
      var more :- ComponentsRead(q[1..]);
      Ok(parts + more)
  }

  /** The empty text has no components. */
  function QueryRead(q: seq<Component>): Result<seq<Part>>
    requires forall i | 0 <= i < |q| :: q[i] != []
  {
    if |q| == 1 && PrintComponent(q[0]) == "" then Ok([]) else ComponentsRead(q)
  }

  // --- Properties -------------------------------------------------------------------------

  lemma PlainLacks(s: string)
    requires Plain(s)
    ensures '/' !in s && ',' !in s && '(' !in s && ')' !in s && '=' !in s && '\\' !in s
  {
  }

  lemma PairReadBack(p: KeyValue)
    requires PlainPair(p)
    ensures PairOf(PrintPair(p)) == if PrintPair(p) == "" then Throw(OutOfRange) else Ok(p)
  {
    hide Split;
    PlainLacks(p.name);
    PlainLacks(p.value);
    var fs := if p.value == "" then [p.name] else [p.name, p.value];
    assert Join(fs, ['=']) == PrintPair(p) by {
      if p.value != "" {
        assert Join(fs[1..], ['=']) == p.value;
      }
    }
    SplitPlainTrimmed(fs, '=');
  }

  lemma {:induction false} PairsReadBack(ps: seq<KeyValue>)
    requires forall p | p in ps :: PlainPair(p)
    ensures PairsOf(PrintPairs(ps)) == PairsRead(ps)
  {
    if ps != [] {
      hide PairOf, PlainPair;
      PairReadBack(ps[0]);
      PairsReadBack(ps[1..]);
      assert PrintPairs(ps)[1..] == PrintPairs(ps[1..]);
    }
  }

  lemma PairPlain(p: KeyValue)
    requires PlainPair(p)
    ensures PlainField(PrintPair(p), ',') && IsTrimmed(PrintPair(p))
    ensures '/' !in PrintPair(p) && '(' !in PrintPair(p) && ')' !in PrintPair(p)
  {
  }

  lemma PropertiesReadBack(ps: seq<KeyValue>)
    requires ps != [] && forall p | p in ps :: PlainPair(p)
    ensures PairsOf(Split(Join(PrintPairs(ps), [',']), ',', true)) == PropertiesRead(ps)
  {
    hide Split, PairOf, PlainPair;
    forall f | f in PrintPairs(ps) ensures PlainField(f, ',') && IsTrimmed(f) {
      var i :| 0 <= i < |ps| && PrintPairs(ps)[i] == f;
      PairPlain(ps[i]);
    }
    SplitPlainTrimmed(PrintPairs(ps), ',');
    PairsReadBack(ps);
    assert PrintPairs(ps) == [""] <==> |ps| == 1 && PrintPair(ps[0]) == "";
  }

  lemma PropertiesLack(ps: seq<KeyValue>)
    requires forall p | p in ps :: PlainPair(p)
    ensures var list := Join(PrintPairs(ps), ",");
      '/' !in list && '(' !in list && ')' !in list && '\\' !in list
  {
    hide PlainPair;
    forall f | f in PrintPairs(ps) ensures '/' !in f && '(' !in f && ')' !in f && '\\' !in f {
      var i :| 0 <= i < |ps| && PrintPairs(ps)[i] == f;
      PairPlain(ps[i]);
    }
    JoinLacks(PrintPairs(ps), ",", '/');
    JoinLacks(PrintPairs(ps), ",", '(');
    JoinLacks(PrintPairs(ps), ",", ')');
    JoinLacks(PrintPairs(ps), ",", '\\');
  }

  // --- Keys -------------------------------------------------------------------------------

  predicate EndsKey(tail: string) {
    '\\' !in tail && (tail == "" || tail[0] == ',')
  }

  function Rest(tail: string): string {
    if tail == "" then "" else tail[1..]
  }

  lemma NameEval(name: string, tail: string)
    requires Plain(name) && EndsKey(tail)
    ensures EvalKey(name + tail) == Ok(Eval(name, [], Rest(tail)))
  {
    PlainLacks(name);
    hide FoundUnescaped, Plain;
    var t := name + tail;
    PlainFound(t, ',', 0);
    FindUnique(t, ',', 0, |name|);
    if tail != "" {
      assert t[|name| + 1..] == tail[1..];
      assert t[..|name|] == name;
    } else {
      assert t == name;
      FindUnique(t, '(', 0, |name|);
    }
  }

  /** Positions in the text of a key with brackets. */
  lemma BracketsFound(name: string, list: string, tail: string)
    requires Plain(name) && '(' !in list && ')' !in list && '\\' !in list && EndsKey(tail)
    ensures var t := name + ("(" + (list + ")")) + tail;
      var end := |name| + 1 + |list|;
      && '\\' !in t && |t| == end + 1 + |tail|
      && Find(t, '(') == |name| && Find(t, ')') == end && Find(t, ',') > |name|
      && Find(t, ',', end) == end + 1
      && t[..|name|] == name && t[|name| + 1..end] == list && t[end + 1..] == tail
  {
    var t := name + ("(" + (list + ")")) + tail;
    var end := |name| + 1 + |list|;
    PlainLacks(name);
    hide Plain;
    FindUnique(t, '(', 0, |name|);
    FindUnique(t, ')', 0, end);
    FindUnique(t, ',', end, end + 1);
  }

  lemma BracketsEval(name: string, list: string, tail: string)
    requires Plain(name) && '(' !in list && ')' !in list && '\\' !in list && EndsKey(tail)
    ensures EvalKey(name + ("(" + (list + ")")) + tail) == Ok(Eval(name, Split(list, ',', true), Rest(tail)))
  {
    hide FoundUnescaped, Plain, Split, Find;
    var t := name + ("(" + (list + ")")) + tail;
    var end := |name| + 1 + |list|;
    BracketsFound(name, list, tail);
    PlainFound(t, ',', 0);
    PlainFound(t, ',', end);
    assert tail != "" ==> t[end + 2..] == t[end + 1..][1..];
  }

  lemma KeyEval(k: Key, tail: string)
    requires PlainKey(k) && EndsKey(tail)
    ensures var r := EvalKey(PrintKey(k) + tail);
      && r.Ok? && r.value.key == k.name && r.value.rest == Rest(tail)
      && PairsOf(r.value.items) == PropertiesRead(k.properties)
  {
    hide Plain, PlainPair, EvalKey, Split;
    if k.properties == [] {
      NameEval(k.name, tail);
    } else {
      PropertiesLack(k.properties);
      PropertiesReadBack(k.properties);
      BracketsEval(k.name, Join(PrintPairs(k.properties), ","), tail);
    }
  }

  // --- Components -------------------------------------------------------------------------

  lemma KeyLacks(k: Key)
    requires PlainKey(k)
    ensures '/' !in PrintKey(k) && '\\' !in PrintKey(k)
  {
    PlainLacks(k.name);
    PropertiesLack(k.properties);
    hide Plain, PlainPair, PrintPairs, Join;
  }

  lemma ComponentLacks(c: Component)
    requires PlainComponent(c)
    ensures '/' !in PrintComponent(c) && '\\' !in PrintComponent(c)
  {
    hide PlainKey, PrintKey;
    forall f | f in PrintKeys(c) ensures '/' !in f && '\\' !in f {
      var i :| 0 <= i < |c| && PrintKeys(c)[i] == f;
      KeyLacks(c[i]);
    }
    JoinLacks(PrintKeys(c), ",", '/');
    JoinLacks(PrintKeys(c), ",", '\\');
  }

  lemma PrintComponentCons(c: Component)
    requires |c| > 1
    ensures PrintComponent(c) == PrintKey(c[0]) + ("," + PrintComponent(c[1..]))
  {
  }

  lemma {:induction false} ComponentReadBack(c: Component, child: bool)
    requires PlainComponent(c)
    ensures PartsOf(PrintComponent(c), child) == ComponentRead(c, child)
    decreases |c|
  {
    hide PlainKey, EvalKey, PropertiesRead, PairsOf, PrintKey;
    if |c| == 1 {
      KeyEval(c[0], "");
      assert PrintKey(c[0]) + "" == PrintKey(c[0]) == PrintComponent(c);
    } else {
      var text := PrintComponent(c[1..]);
      ComponentLacks(c[1..]);
      KeyEval(c[0], "," + text);
      PrintComponentCons(c);
      assert ("," + text)[1..] == text;
      if text != "" {
        ComponentReadBack(c[1..], false);
      }
    }
  }

  lemma {:induction false} ComponentsReadBack(q: seq<Component>)
    requires forall i | 0 <= i < |q| :: q[i] != [] && PlainComponent(q[i])
    ensures AllParts(PrintComponents(q)) == ComponentsRead(q)
  {
    hide PlainKey, PartsOf, ComponentRead, PrintComponent;
    if q != [] {
      ComponentReadBack(q[0], true);
      assert PrintComponents(q)[1..] == PrintComponents(q[1..]);
      ComponentsReadBack(q[1..]);
    }
  }

  /** What parsing makes of any printed plain query. */
  lemma PrintedQueryRead(q: seq<Component>)
    requires PlainQuery(q)
    ensures Parsed(PrintQuery(q), false) == QueryRead(q)
  {
    hide PlainKey, PartsOf, PrintComponent, Split, ComponentRead, Join;
    forall f | f in PrintComponents(q) ensures PlainField(f, '/') {
      var i :| 0 <= i < |q| && PrintComponents(q)[i] == f;
      ComponentLacks(q[i]);
    }
    SplitPlain(PrintComponents(q), '/');
    ComponentsReadBack(q);
    assert PrintComponents(q) == [""] <==> |q| == 1 && PrintComponent(q[0]) == "";
  }

  // --- Round trip -------------------------------------------------------------------------

  /** Every property prints as some text. */
  predicate PropertiesShow(k: Key) {
    forall i | 0 <= i < |k.properties| :: PrintPair(k.properties[i]) != ""
  }

  /** No empty text where the parser reads nothing: as a property, as the last of several keys
      of a component, or as the whole query. */
  predicate Unambiguous(q: seq<Component>)
    requires forall i | 0 <= i < |q| :: q[i] != []
  {
    && (forall i, j | 0 <= i < |q| && 0 <= j < |q[i]| :: PropertiesShow(q[i][j]))
    && (forall i | 0 <= i < |q| :: |q[i]| > 1 ==> PrintKey(q[i][|q[i]| - 1]) != "")
    && !(|q| == 1 && |q[0]| == 1 && PrintKey(q[0][0]) == "")
  }

  lemma {:induction false} PairsReadIff(ps: seq<KeyValue>)
    ensures PairsRead(ps) == Ok(ps) <==> forall i | 0 <= i < |ps| :: PrintPair(ps[i]) != ""
    ensures PairsRead(ps).Ok? ==> PairsRead(ps).value == ps
  {
    if ps != [] {
      PairsReadIff(ps[1..]);
      assert ps == [ps[0]] + ps[1..];
    }
  }

  lemma PropertiesReadIff(k: Key)
    ensures PropertiesRead(k.properties) == Ok(k.properties) <==> PropertiesShow(k)
  {
    PairsReadIff(k.properties);
  }

  predicate ComponentShows(c: Component)
    requires c != []
  {
    && (forall j | 0 <= j < |c| :: PropertiesShow(c[j]))
    && (|c| > 1 ==> PrintKey(c[|c| - 1]) != "")
  }

  lemma {:induction false} ComponentReadIff(c: Component, child: bool)
    requires c != []
    ensures ComponentRead(c, child) == Ok(FlattenComponent(c, child)) <==> ComponentShows(c)
    ensures ComponentRead(c, child).Ok? ==> |ComponentRead(c, child).value| <= |c| == |FlattenComponent(c, child)|
    decreases |c|
  {
    hide PropertiesRead, PrintKey, PropertiesShow;
    PropertiesReadIff(c[0]);
    var properties := PropertiesRead(c[0].properties);
    if |c| == 1 {
      assert FlattenComponent(c, child) == [Part(c[0].name, c[0].properties, child)];
      assert properties.Ok? ==> ComponentRead(c, child).value[0].properties == properties.value;
    } else {
      ComponentReadIff(c[1..], false);
      var more, flat := ComponentRead(c[1..], false), FlattenComponent(c[1..], false);
      FlattenLength(c, child);
      if properties.Ok? && more.Ok? {
        HeadAndTail(Part(c[0].name, properties.value, child), more.value,
                    Part(c[0].name, c[0].properties, child), flat);
      }
    }
  }

  lemma HeadAndTail<T>(x: T, xs: seq<T>, y: T, ys: seq<T>)
    ensures [x] + xs == [y] + ys <==> x == y && xs == ys
  {
    assert ([x] + xs)[1..] == xs && ([y] + ys)[1..] == ys;
    assert ([x] + xs)[0] == x && ([y] + ys)[0] == y;
  }

  lemma {:induction false} FlattenLength(c: Component, child: bool)
    ensures |FlattenComponent(c, child)| == |c|
  {
    if c != [] {
      FlattenLength(c[1..], false);
    }
  }

  lemma {:induction false} ComponentsReadIff(q: seq<Component>)
    requires forall i | 0 <= i < |q| :: q[i] != []
    ensures ComponentsRead(q) == Ok(Flatten(q)) <==> forall i | 0 <= i < |q| :: ComponentShows(q[i])
    ensures ComponentsRead(q).Ok? ==> |ComponentsRead(q).value| <= |Flatten(q)|
  {
    hide ComponentRead, ComponentShows, FlattenComponent;
    if q != [] {
      ComponentReadIff(q[0], true);
      ComponentsReadIff(q[1..]);
      assert forall i | 1 <= i < |q| :: q[i] == q[1..][i - 1];
      assert forall i | 0 <= i < |q[1..]| :: q[1..][i] == q[i + 1];
      var parts, more := ComponentRead(q[0], true), ComponentsRead(q[1..]);
      FlattenLength(q[0], true);
      if parts.Ok? && more.Ok? {
        SplitSums(parts.value, more.value, FlattenComponent(q[0], true), Flatten(q[1..]));
      }
    }
  }

  lemma SplitSums<T>(a: seq<T>, b: seq<T>, c: seq<T>, d: seq<T>)
    requires |a| <= |c| && |b| <= |d|
    ensures a + b == c + d <==> a == c && b == d
  {
    if a + b == c + d {
      assert |a| == |c|;
      assert (a + b)[..|a|] == a && (c + d)[..|c|] == c && (a + b)[|a|..] == b && (c + d)[|c|..] == d;
    }
  }

  /** Parsing a printed plain query yields its parts exactly when it is unambiguous. */
  lemma PrintedQueryReadBack(q: seq<Component>)
    requires PlainQuery(q)
    ensures Parsed(PrintQuery(q), false) == Ok(Flatten(q)) <==> Unambiguous(q)
  {
    hide PlainKey, PrintKey, PropertiesShow, Parsed, PrintQuery, ComponentRead, FlattenComponent;
    PrintedQueryRead(q);
    ComponentsReadIff(q);
    if |q| == 1 && PrintComponent(q[0]) == "" {
      FlattenLength(q[0], true);
      assert |Flatten(q)| >= 1;
    }
  }

  // --- Texts that are no printed query ----------------------------------------------------

  /** Text behind the brackets of a key, up to which there is no comma, is another key of the component. */
  lemma KeyBehindBrackets(k: Key, name: string, child: bool)
    requires PlainKey(k) && k.properties != [] && Plain(name) && name != ""
    ensures var properties, parts := PropertiesRead(k.properties), PartsOf(PrintKey(k) + name, child);
      if properties.Ok? then parts == Ok([Part(k.name, properties.value, child), Part(name, [], false)])
      else parts == Throw(properties.error)
  {
    hide Plain, PlainPair, Split, PropertiesRead, EvalKey, PartsOf, PairsOf, PrintPairs, Join;
    var list := Join(PrintPairs(k.properties), ",");
    PropertiesLack(k.properties);
    PropertiesReadBack(k.properties);
    BracketsThenText(k.name, list, name);
    NameAlone(name);
    PartThenName(PrintKey(k) + name, child, k.name, Split(list, ',', true), name);
  }

  lemma PartsStep(component: string, child: bool, eval: Eval)
    requires EvalKey(component) == Ok(eval) && eval.rest != "" && PairsOf(eval.items).Ok?
    requires PartsOf(eval.rest, false).Ok?
    ensures PartsOf(component, child)
         == Ok([Part(eval.key, PairsOf(eval.items).value, child)] + PartsOf(eval.rest, false).value)
  {
    hide EvalKey, PairsOf;
  }

  lemma PartsFail(component: string, child: bool, eval: Eval)
    requires EvalKey(component) == Ok(eval) && PairsOf(eval.items).Throw?
    ensures PartsOf(component, child) == Throw(PairsOf(eval.items).error)
  {
    hide EvalKey, PairsOf;
  }

  lemma PartThenName(component: string, child: bool, key: string, items: seq<string>, name: string)
    requires EvalKey(component) == Ok(Eval(key, items, name)) && name != ""
    requires PartsOf(name, false) == Ok([Part(name, [], false)])
    ensures var properties, parts := PairsOf(items), PartsOf(component, child);
      if properties.Ok? then parts == Ok([Part(key, properties.value, child), Part(name, [], false)])
      else parts == Throw(properties.error)
  {
    hide EvalKey, PairsOf, PartsOf;
    if PairsOf(items).Ok? {
      PartsStep(component, child, Eval(key, items, name));
      var part, last := Part(key, PairsOf(items).value, child), Part(name, [], false);
      assert [part] + [last] == [part, last];
    } else {
      PartsFail(component, child, Eval(key, items, name));
    }
  }

  lemma NameAlone(name: string)
    requires Plain(name)
    ensures PartsOf(name, false) == Ok([Part(name, [], false)])
  {
    hide Plain;
    assert name + "" == name;
    NameEval(name, "");
    hide EvalKey;
  }

  lemma BracketsThenText(name: string, list: string, tail: string)
    requires Plain(name) && '(' !in list && ')' !in list && '\\' !in list && Plain(tail)
    ensures EvalKey(name + ("(" + (list + ")")) + tail) == Ok(Eval(name, Split(list, ',', true), tail))
  {
    hide FoundUnescaped, Split, Find;
    PlainLacks(name);
    PlainLacks(tail);
    var t, end := name + ("(" + (list + ")")) + tail, |name| + 1 + |list|;
    hide Plain;
    TextPositions(name, list, tail);
    PlainFound(t, ',', 0);
    PlainFound(t, ',', end);
  }

  lemma TextPositions(name: string, list: string, tail: string)
    requires ',' !in name && '(' !in name && ')' !in name && '\\' !in name
    requires '(' !in list && ')' !in list && '\\' !in list
    requires ',' !in tail && '(' !in tail && ')' !in tail && '\\' !in tail
    ensures var t, end := name + ("(" + (list + ")")) + tail, |name| + 1 + |list|;
      && '\\' !in t && Find(t, '(') == |name| && Find(t, ')') == end && |name| <= Find(t, ',', 0)
      && Find(t, ',', end) == |t| && t[..|name|] == name && t[|name| + 1..end] == list && t[end + 1..] == tail
  {
    var t, end := name + ("(" + (list + ")")) + tail, |name| + 1 + |list|;
    FindUnique(t, '(', 0, |name|);
    FindUnique(t, ')', 0, end);
    FindUnique(t, ',', end, |t|);
  }

  /** With a trailing separator the first part of a query is dropped, whichever it is. */
  lemma TrailingDropsFirst(query: string)
    ensures var all, rest := Parsed(query, false), Parsed(query, true);
      if all.Throw? then rest == all
      else rest == if all.value == [] then Throw(UndefinedBehaviour) else Ok(all.value[1..])
  {
  }

  /** Blanks around name and value of a property do not count. */
  lemma PaddedPairRead(name: Padded, value: Padded)
    requires PlainPadded(name, '=') && PlainPadded(value, '=')
    ensures PairOf(name.Text() + ("=" + value.Text())) == Ok(KeyValue(name.field, value.field))
  {
    hide Split, PlainPadded, Join, Texts, FieldsOf;
    var ps := [name, value];
    SplitTrims(ps, '=');
    TwoTexts(name, value);
    JoinTwo(name.Text(), value.Text());
  }

  lemma TwoTexts(a: Padded, b: Padded)
    ensures Texts([a, b]) == [a.Text(), b.Text()] && FieldsOf([a, b]) == [a.field, b.field]
  {
  }

  lemma JoinTwo(a: string, b: string)
    ensures Join([a, b], ['=']) == a + ("=" + b)
  {
    assert [a, b][1..] == [b];
    assert Join([b], ['=']) == b;
  }

  /** A property of which only blanks are there is refused, unlike empty brackets. */
  lemma BlankPropertyRefused(name: string, blanks: string, child: bool)
    requires Plain(name) && AllBlank(blanks)
    ensures PartsOf(name + ("(" + (blanks + ")")), child)
         == if blanks == "" then Ok([Part(name, [], child)]) else Throw(OutOfRange)
  {
    hide Plain, Split, EvalKey, PartsOf;
    assert '(' !in blanks && ')' !in blanks && '\\' !in blanks && ',' !in blanks;
    var t := name + ("(" + (blanks + ")"));
    assert t + "" == t;
    NothingPlain();
    BracketsThenText(name, blanks, "");
    var items := Split(blanks, ',', true);
    if blanks == "" {
      NoFields();
    } else {
      BlankItem(blanks);
    }
    LastPart(t, child, Eval(name, items, ""));
  }

  lemma NothingPlain()
    ensures Plain("")
  {
  }

  lemma NoFields()
    ensures PairsOf(Split("", ',', true)) == Ok([])
  {
  }

  lemma BlankItem(blanks: string)
    requires blanks != "" && AllBlank(blanks)
    ensures PairsOf(Split(blanks, ',', true)) == Throw(OutOfRange)
  {
    hide Split, AllBlank;
    var ps := [Padded(blanks, "", "")];
    assert ps[0].Text() == blanks;
    BlankField(blanks);
    SplitTrims(ps, ',');
    assert Texts(ps) == [blanks] && Join([blanks], [',']) == blanks && FieldsOf(ps) == [""];
    EmptyItem();
  }

  lemma BlankField(blanks: string)
    requires AllBlank(blanks)
    ensures PlainPadded(Padded(blanks, "", ""), ',')
  {
    assert Padded(blanks, "", "").Text() == blanks;
  }

  lemma EmptyItem()
    ensures PairsOf([""]) == Throw(OutOfRange)
  {
    assert Split("", '=', true) == [];
  }

  lemma LastPart(component: string, child: bool, eval: Eval)
    requires EvalKey(component) == Ok(eval) && eval.rest == ""
    ensures PartsOf(component, child)
         == var properties := PairsOf(eval.items);
            if properties.Ok? then Ok([Part(eval.key, properties.value, child)]) else Throw(properties.error)
  {
    hide EvalKey, PairsOf;
  }
}
