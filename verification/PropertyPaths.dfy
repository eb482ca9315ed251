/** How creating and removing properties changes what paths resolve to. */
module PropertyPaths {
  import opened Exceptions
  import opened PropertyTree
  import opened Strings
  import Numbers

  // --- Runs -------------------------------------------------------------------------------

  datatype Step =
    | CreateAt(path: string)                 // createProperty on the root
    | AddAt(at: Position, name: string)      // addChild of a new node
    | RemoveAt(at: Position, child: nat)     // removeChild

  predicate Enabled(t: Node, step: Step) {
    match step
    case CreateAt(_) => true
    case AddAt(at, _) => Exists(t, at)
    case RemoveAt(at, child) => Exists(t, at) && child < |NodeAt(t, at).children|
  }

  function Apply(t: Node, step: Step): Node
    requires Enabled(t, step)
  {
    match step
    case CreateAt(path) => Create(t, path).tree
    case AddAt(at, name) => WithNode(t, at, WithChild(NodeAt(t, at), NewNode(name)))
    case RemoveAt(at, child) => WithNode(t, at, WithoutChild(NodeAt(t, at), child))
  }

  predicate IsRun(t: Node, steps: seq<Step>)
    decreases |steps|
  {
    steps == [] || (Enabled(t, steps[0]) && IsRun(Apply(t, steps[0]), steps[1..]))
  }

  function Exec(t: Node, steps: seq<Step>): Node
    requires IsRun(t, steps)
    decreases |steps|
  {
    if steps == [] then t else Exec(Apply(t, steps[0]), steps[1..])
  }

  predicate RemovalFree(steps: seq<Step>) {
    forall i | 0 <= i < |steps| :: !steps[i].RemoveAt?
  }

  lemma {:induction false} NodeKeeps(t: Node, at: Position)
    requires Exists(t, at)
    ensures (Distinct(t) ==> Distinct(NodeAt(t, at))) && (Compact(t) ==> Compact(NodeAt(t, at)))
    decreases |at|
  {
    if at != [] {
      NodeKeeps(t.children[at[0]], at[1..]);
    }
  }

  lemma {:induction false} WithNodeKeeps(t: Node, at: Position, n: Node)
    requires Exists(t, at) && n.name == NodeAt(t, at).name && n.index == NodeAt(t, at).index
    ensures var t' := WithNode(t, at, n);
      && t'.name == t.name && t'.index == t.index
      && (Distinct(t) && Distinct(n) ==> Distinct(t')) && (Compact(t) && Compact(n) ==> Compact(t'))
    decreases |at|
  {
    if at != [] {
      hide Distinct, Compact;
      WithNodeKeeps(t.children[at[0]], at[1..], n);
      ReplaceKeeps(t, at[0], WithNode(t.children[at[0]], at[1..], n));
    }
  }

  lemma StepKeeps(t: Node, step: Step)
    requires Enabled(t, step)
    ensures Distinct(t) ==> Distinct(Apply(t, step))
    ensures Compact(t) && !step.RemoveAt? ==> Compact(Apply(t, step))
  {
    hide Distinct, Compact;
    match step
    case CreateAt(path) => CreateKeepsIndices(t, path);
    case AddAt(at, name) =>
      var n, leaf := NodeAt(t, at), NewNode(name);
      NodeKeeps(t, at);
      LeafKeeps(leaf);
      if Distinct(t) { WithChildDistinct(n, leaf); }
      if Compact(t) { WithChildCompact(n, leaf); }
      WithNodeKeeps(t, at, WithChild(n, leaf));
    case RemoveAt(at, child) =>
      NodeKeeps(t, at);
      if Distinct(t) { WithoutChildDistinct(NodeAt(t, at), child); }
      WithNodeKeeps(t, at, WithoutChild(NodeAt(t, at), child));
  }

  /** In every run, same-named siblings keep distinct indices. */
  lemma {:induction false} RunKeepsDistinct(t: Node, steps: seq<Step>)
    requires Distinct(t) && IsRun(t, steps)
    ensures Distinct(Exec(t, steps))
    decreases |steps|
  {
    if steps != [] {
      hide Distinct, Apply;
      StepKeeps(t, steps[0]);
      RunKeepsDistinct(Apply(t, steps[0]), steps[1..]);
    }
  }

  /** In every run without removals, they carry the indices 0, 1, 2 and so on. */
  lemma {:induction false} RunKeepsCompact(t: Node, steps: seq<Step>)
    requires Compact(t) && IsRun(t, steps) && RemovalFree(steps)
    ensures Compact(Exec(t, steps))
    decreases |steps|
  {
    if steps != [] {
      hide Compact, Apply;
      StepKeeps(t, steps[0]);
      RunKeepsCompact(Apply(t, steps[0]), steps[1..]);
    }
  }

  /** Both, in every run that starts with a root of its own. */
  lemma EveryRunIndexed(name: string, steps: seq<Step>)
    requires IsRun(NewNode(name), steps)
    ensures Distinct(Exec(NewNode(name), steps))
    ensures RemovalFree(steps) ==> Compact(Exec(NewNode(name), steps))
  {
    var t := NewNode(name);
    assert Distinct(t) && Compact(t);
    hide Distinct, Compact, Exec, IsRun;
    RunKeepsDistinct(t, steps);
    if RemovalFree(steps) {
      RunKeepsCompact(t, steps);
    }
  }

  // --- Old paths keep their nodes ---------------------------------------------------------

  /** t with children appended here and there; nothing else has changed. */
  ghost predicate Extends(t': Node, t: Node)
    decreases t
  {
    && t'.name == t.name && t'.index == t.index && t'.value == t.value && t'.flags == t.flags
    && |t'.children| >= |t.children|
    && forall i | 0 <= i < |t.children| :: Extends(t'.children[i], t.children[i])
  }

  lemma ExtendsSelf(t: Node)
    ensures Extends(t, t)
    decreases t
  {
  }

  lemma {:induction false} CreateExtends(t: Node, path: string)
    ensures Extends(Create(t, path).tree, t)
    decreases |path|
  {
    ExtendsSelf(t);
    if path != "" && path != "/" {
      var p := CarCdr(path);
      var next := Next(t, p.head);
      if next.Ok? && p.tail != "" {
        CreateExtends(next.value.tree.children[next.value.child], p.tail);
      }
    }
  }

  /** No component of the path asks for the last sibling of a name. */
  predicate AsksNoLast(path: string)
    decreases |path|
  {
    path == "" || path == "/"
    || (NameAndIndex(CarCdr(path).head).index != LAST && AsksNoLast(CarCdr(path).tail))
  }

  lemma {:induction false} MatchInPrefix(a: seq<Node>, b: seq<Node>, name: string, index: int, i: nat)
    requires i <= |a| <= |b| && forall j | 0 <= j < |a| :: a[j].name == b[j].name && a[j].index == b[j].index
    requires MatchFrom(a, name, index, i) < |a|
    ensures MatchFrom(b, name, index, i) == MatchFrom(a, name, index, i)
    decreases |a| - i
  {
    if !(a[i].name == name && a[i].index == index) {
      MatchInPrefix(a, b, name, index, i + 1);
    }
  }

  lemma SelectedInPrefix(a: seq<Node>, b: seq<Node>, name: string)
    requires |a| <= |b| && forall j | 0 <= j < |a| :: a[j].name == b[j].name && a[j].index == b[j].index
    requires ChildByName(a, name).Some? && NameAndIndex(name).index != LAST
    ensures ChildByName(b, name) == ChildByName(a, name)
  {
    hide NameAndIndex, LastNamed, MatchFrom;
    var n := NameAndIndex(name);
    MatchInPrefix(a, b, n.name, n.index, 0);
  }

  lemma {:induction false} ExtensionKeepsPath(t: Node, t': Node, path: string)
    requires Extends(t', t) && Get(t, path).Some? && AsksNoLast(path)
    ensures Get(t', path) == Get(t, path)
    decreases |path|
  {
    hide NameAndIndex, CarCdr, ChildByName;
    if path != "" && path != "/" {
      var p := CarCdr(path);
      SelectedInPrefix(t.children, t'.children, p.head);
      if p.tail != "" {
        var k := ChildByName(t.children, p.head).value;
        ExtensionKeepsPath(t.children[k], t'.children[k], p.tail);
      }
    }
  }

  /** Creating a property leaves every path that resolved where it was, unless it asks for the
      last sibling of a name. */
  lemma CreateKeepsPaths(t: Node, created: string, path: string)
    requires Get(t, path).Some? && AsksNoLast(path)
    ensures Get(Create(t, created).tree, path) == Get(t, path)
  {
    CreateExtends(t, created);
    ExtensionKeepsPath(t, Create(t, created).tree, path);
  }

  lemma {:induction false} ExtendsOn(a: Node, b: Node, c: Node)
    requires Extends(b, a) && Extends(c, b)
    ensures Extends(c, a)
    decreases a
  {
    forall i | 0 <= i < |a.children| ensures Extends(c.children[i], a.children[i]) {
      ExtendsOn(a.children[i], b.children[i], c.children[i]);
    }
  }

  lemma {:induction false} AddExtends(t: Node, at: Position, c: Node)
    requires Exists(t, at)
    ensures Extends(WithNode(t, at, WithChild(NodeAt(t, at), c)), t)
    decreases |at|
  {
    ExtendsSelf(t);
    if at != [] {
      AddExtends(t.children[at[0]], at[1..], c);
    }
  }

  lemma {:induction false} RunExtends(t: Node, steps: seq<Step>)
    requires IsRun(t, steps) && RemovalFree(steps)
    ensures Extends(Exec(t, steps), t)
    decreases |steps|
  {
    ExtendsSelf(t);
    if steps != [] {
      match steps[0] {
        case CreateAt(path) => CreateExtends(t, path);
        case AddAt(at, name) => AddExtends(t, at, NewNode(name));
      }
      hide Extends, Apply;
      RunExtends(Apply(t, steps[0]), steps[1..]);
      ExtendsOn(t, Apply(t, steps[0]), Exec(t, steps));
    }
  }

  /** So does every run without removals. */
  lemma RunKeepsPaths(t: Node, steps: seq<Step>, path: string)
    requires IsRun(t, steps) && RemovalFree(steps) && Get(t, path).Some? && AsksNoLast(path)
    ensures Get(Exec(t, steps), path) == Get(t, path)
  {
    RunExtends(t, steps);
    ExtensionKeepsPath(t, Exec(t, steps), path);
  }

  /** Creating what exists changes nothing. */
  lemma {:induction false} CreateExisting(t: Node, path: string)
    requires Get(t, path).Some?
    ensures Create(t, path) == Created(t, Ok(Get(t, path).value))
    decreases |path|
  {
    if path != "" && path != "/" {
      var p := CarCdr(path);
      hide CarCdr, ChildByName, NewName;
      var k := ChildByName(t.children, p.head).value;
      if p.tail != "" {
        CreateExisting(t.children[k], p.tail);
        assert t.(children := t.children[k := t.children[k]]) == t;
      }
    }
  }

  // --- What is created is found -----------------------------------------------------------

  predicate PlainName(name: string) {
    name != "" && '[' !in name && name[|name| - 1] != '+'
  }

  predicate PlainPath(path: string)
    decreases |path|
  {
    && path != ""
    && var p := CarCdr(path);
       PlainName(p.head) && (p.tail == "" || PlainPath(p.tail))
  }

  /** Where the path leaves the tree, siblings of the missing name exist although none has index 0. */
  predicate MeetsGap(t: Node, path: string)
    decreases |path|
  {
    && path != ""
    && var p := CarCdr(path);
       match ChildByName(t.children, p.head)
       case Some(k) => p.tail != "" && MeetsGap(t.children[k], p.tail)
       case None => HasNamed(t.children, p.head)
  }

  predicate HasNamed(children: seq<Node>, name: string) {
    exists i :: 0 <= i < |children| && children[i].name == name
  }

  lemma PlainNameAlone(name: string)
    requires PlainName(name)
    ensures NameAndIndex(name) == Indexed(name, 0) && NewName(name) == name
  {
  }

  lemma MatchUnique(children: seq<Node>, name: string, index: int, k: nat)
    requires k <= |children| && (k < |children| ==> children[k].name == name && children[k].index == index)
    requires forall j | 0 <= j < k :: !(children[j].name == name && children[j].index == index)
    ensures MatchFrom(children, name, index, 0) == k
  {
  }

  lemma PlainSelects(children: seq<Node>, name: string)
    requires PlainName(name)
    ensures var k := MatchFrom(children, name, 0, 0);
      ChildByName(children, name) == if k < |children| then Some(k) else None
  {
  }

  /** A new child is found by its name exactly if it is the first of that name. */
  lemma NewChildFound(t: Node, name: string)
    requires PlainName(name) && Distinct(t) && ChildByName(t.children, name).None?
    ensures Next(t, name) == Ok(Stepped(WithChild(t, NewNode(name)), |t.children|))
    ensures var t' := WithChild(t, NewNode(name));
      ChildByName(t'.children, name) == if HasNamed(t.children, name) then None else Some(|t.children|)
  {
    hide NameAndIndex, NewName, LastNamed, ChildByName, Distinct, SiblingsDistinct;
    PlainNameAlone(name);
    var k, c := |t.children|, NewNode(name);
    var t' := WithChild(t, c);
    PlainSelects(t.children, name);
    PlainSelects(t'.children, name);
    NewIndex(t, name);
    MatchUnique(t'.children, name, 0, if HasNamed(t.children, name) then k + 1 else k);
  }

  lemma NewIndex(t: Node, name: string)
    requires Distinct(t)
    ensures var m := MaxIndex(t.children, name);
      if HasNamed(t.children, name) then m >= 0 else m == -1
  {
  }

  /** createProperty on a plain path always succeeds, and getProperty finds the node at that path
      exactly if the path meets no gap. */
  lemma {:induction false} CreateThenGet(t: Node, path: string)
    requires PlainPath(path) && Distinct(t)
    ensures Create(t, path).at.Ok?
    ensures Get(Create(t, path).tree, path) == Some(Create(t, path).at.value) <==> !MeetsGap(t, path)
    decreases |path|
  {
    var p := CarCdr(path);
    SlashIsNotPlain(path);
    hide CarCdr, Distinct, PlainName, Next, ChildByName, WithChild, Create, Get, HasNamed;
    match ChildByName(t.children, p.head)
    case Some(k) =>
      NextFound(t, p.head, k);
      PathStep(t, path, t, k);
      if p.tail != "" {
        CreateThenGet(t.children[k], p.tail);
      }
    case None =>
      NewChildFound(t, p.head);
      var t', k := WithChild(t, NewNode(p.head)), |t.children|;
      PathStep(t, path, t', k);
      if p.tail != "" {
        LeafKeeps(t'.children[k]);
        CreateThenGet(t'.children[k], p.tail);
      }
  }

  /** One step down a path: creation goes on below the child the first name leads to, and the
      path is found afterwards if that child is what the name selects. */
  lemma PathStep(t: Node, path: string, t': Node, k: nat)
    requires path != "" && path != "/" && Next(t, CarCdr(path).head) == Ok(Stepped(t', k))
    ensures var p, r := CarCdr(path), Create(t, path);
      var below := Create(t'.children[k], p.tail);
      && (p.tail == "" ==> r == Created(t', Ok([k])))
      && (p.tail != "" ==> r.at == Below(k, below.at))
      && (ChildByName(t'.children, p.head) == None ==> Get(r.tree, path) == None)
      && (ChildByName(t'.children, p.head) == Some(k) ==>
            Get(r.tree, path) == if p.tail == "" then Some([k]) else Under(k, Get(below.tree, p.tail)))
  {
    var p := CarCdr(path);
    hide CarCdr, Next, ChildByName;
    if p.tail != "" {
      CreateBelow(t', p.head, k, p.tail);
    }
  }

  lemma NextFound(t: Node, name: string, k: nat)
    requires ChildByName(t.children, name) == Some(k)
    ensures Next(t, name) == Ok(Stepped(t, k))
  {
  }

  /** Creating below a child does not change what a name selects. */
  lemma CreateBelow(t: Node, name: string, k: nat, tail: string)
    requires k < |t.children|
    ensures ChildByName(t.children[k := Create(t.children[k], tail).tree], name) == ChildByName(t.children, name)
  {
    CreateExtends(t.children[k], tail);
    SameSelection(t.children, t.children[k := Create(t.children[k], tail).tree], name);
  }

  lemma SlashIsNotPlain(path: string)
    requires PlainPath(path)
    ensures path != "/"
  {
  }

  /** Names and indices alone decide what a name selects. */
  lemma SameSelection(a: seq<Node>, b: seq<Node>, name: string)
    requires |a| == |b| && forall j | 0 <= j < |a| :: a[j].name == b[j].name && a[j].index == b[j].index
    ensures ChildByName(a, name) == ChildByName(b, name)
  {
    hide NameAndIndex, MatchFrom, LastNamed;
    var n := NameAndIndex(name);
    MatchUnique(b, n.name, n.index, MatchFrom(a, n.name, n.index, 0));
    SameLast(a, b, n.name);
  }

  lemma {:induction false} SameLast(a: seq<Node>, b: seq<Node>, name: string)
    requires |a| == |b| && forall j | 0 <= j < |a| :: a[j].name == b[j].name
    ensures LastNamed(a, name) == LastNamed(b, name)
  {
    if a != [] {
      SameLast(a[..|a| - 1], b[..|b| - 1], name);
    }
  }

  /** Without removals there are no gaps. */
  lemma {:induction false} CompactMeetsNoGap(t: Node, path: string)
    requires Compact(t) && PlainPath(path)
    ensures !MeetsGap(t, path)
    decreases |path|
  {
    var p := CarCdr(path);
    hide CarCdr, PlainName, NameAndIndex, SiblingsCompact;
    match ChildByName(t.children, p.head)
    case Some(k) =>
      if p.tail != "" {
        CompactMeetsNoGap(t.children[k], p.tail);
      }
    case None =>
      PlainSelects(t.children, p.head);
      if i :| 0 <= i < |t.children| && t.children[i].name == p.head {
        FirstHasZero(t.children, p.head, i);
      }
  }

  lemma {:induction false} FirstHasZero(children: seq<Node>, name: string, i: nat)
    requires SiblingsCompact(children) && i < |children| && children[i].name == name
    ensures MatchFrom(children, name, 0, 0) < |children|
    decreases i
  {
    if j :| 0 <= j < i && children[j].name == name {
      FirstHasZero(children, name, j);
    } else {
      NoneCounted(children[..i], name);
    }
  }

  lemma {:induction false} NoneCounted(children: seq<Node>, name: string)
    requires forall j | 0 <= j < |children| :: children[j].name != name
    ensures CountNamed(children, name) == 0
  {
    if children != [] {
      NoneCounted(children[..|children| - 1], name);
    }
  }

  lemma {:induction false} PlainAsksNoLast(path: string)
    requires PlainPath(path)
    ensures AsksNoLast(path)
    decreases |path|
  {
    var p := CarCdr(path);
    PlainNameAlone(p.head);
    hide CarCdr, NameAndIndex, PlainName;
    if p.tail != "" {
      PlainAsksNoLast(p.tail);
    }
  }

  /** In every run without removals from a root of its own: what createProperty returned for a plain
      path is what getProperty finds for it at the end. */
  lemma CreatedStaysFound(name: string, before: seq<Step>, path: string, after: seq<Step>)
    requires IsRun(NewNode(name), before) && RemovalFree(before) && RemovalFree(after) && PlainPath(path)
    requires IsRun(Create(Exec(NewNode(name), before), path).tree, after)
    ensures var created := Create(Exec(NewNode(name), before), path);
      created.at.Ok? && Get(Exec(created.tree, after), path) == Some(created.at.value)
  {
    hide IsRun, Exec, RemovalFree, PlainPath, Create, Get, Distinct, Compact, AsksNoLast;
    EveryRunIndexed(name, before);
    var t := Exec(NewNode(name), before);
    CompactMeetsNoGap(t, path);
    CreateThenGet(t, path);
    PlainAsksNoLast(path);
    RunKeepsPaths(Create(t, path).tree, after, path);
  }

  // --- Exactly what is missing is added ---------------------------------------------------

  /** The deepest node on the path, and the path below it. */
  datatype Resolved = Resolved(at: Position, rest: string)

  function Resolve(t: Node, path: string): (r: Resolved)
    ensures Exists(t, r.at)
    decreases |path|
  {
    if path == "" || path == "/" then Resolved([], "")
    else
      var p := CarCdr(path);
      match ChildByName(t.children, p.head)
      case None => Resolved([], path)
      case Some(k) =>
        var below := Resolve(t.children[k], p.tail);
        Resolved([k] + below.at, below.rest)
  }

  /** The chain of new nodes that a path names, one below the other, below a node; a component
      without a name ends it. */
  function WithChain(n: Node, path: string): Node
    decreases |path|
  {
    if path == "" || path == "/" then n
    else
      var p := CarCdr(path);
      if NewName(p.head) == "" then n else WithChild(n, WithChain(NewNode(NewName(p.head)), p.tail))
  }

  /** createProperty adds the chain of missing nodes below the deepest existing one, and nothing
      else. */
  lemma {:induction false} CreateAddsMissing(t: Node, path: string)
    ensures var r := Resolve(t, path);
      Create(t, path).tree == WithNode(t, r.at, WithChain(NodeAt(t, r.at), r.rest))
    decreases |path|
  {
    if path != "" && path != "/" {
      var p := CarCdr(path);
      hide CarCdr, ChildByName, NewName;
      match ChildByName(t.children, p.head)
      case Some(k) =>
        CreateAddsMissing(t.children[k], p.tail);
        if p.tail == "" {
          assert t.(children := t.children[k := t.children[k]]) == t;
        }
      case None => CreateHere(t, path);
    }
  }

  lemma CreateHere(t: Node, path: string)
    requires path != "" && path != "/" && ChildByName(t.children, CarCdr(path).head).None?
    ensures Create(t, path).tree == WithChain(t, path)
  {
    var p := CarCdr(path);
    hide CarCdr, ChildByName, NewName;
    if NewName(p.head) != "" && p.tail != "" {
      var t', k := WithChild(t, NewNode(NewName(p.head))), |t.children|;
      CreateInFresh(t'.children[k], p.tail);
      ChainBelow(t, NewNode(NewName(p.head)), p.tail);
    }
  }

  lemma {:induction false} CreateInFresh(n: Node, path: string)
    requires n.children == []
    ensures Create(n, path).tree == WithChain(n, path)
    decreases |path|
  {
    if path != "" && path != "/" {
      var p := CarCdr(path);
      hide CarCdr, NewName;
      NothingSelected(p.head);
      if NewName(p.head) != "" && p.tail != "" {
        var t' := WithChild(n, NewNode(NewName(p.head)));
        CreateInFresh(t'.children[0], p.tail);
        ChainBelow(n, NewNode(NewName(p.head)), p.tail);
      }
    }
  }

  lemma NothingSelected(name: string)
    ensures ChildByName([], name) == None
  {
  }

  /** A chain may be built before or after its first node is added. */
  lemma ChainBelow(t: Node, c: Node, path: string)
    requires c.index == 0
    ensures var t', k := WithChild(t, c), |t.children|;
      t'.(children := t'.children[k := WithChain(t'.children[k], path)]) == WithChild(t, WithChain(c, path))
  {
    hide WithChain, MaxIndex;
    var i := MaxIndex(t.children, c.name) + 1;
    ChainIndex(c, path, i);
  }

  lemma ChainIndex(c: Node, path: string, index: int)
    ensures WithChain(c.(index := index), path) == WithChain(c, path).(index := index)
    ensures WithChain(c, path).name == c.name
  {
    hide CarCdr, NewName, MaxIndex;
  }

  // --- The newest sibling -----------------------------------------------------------------

  lemma LastName(name: string)
    requires name != "" && '[' !in name && ']' !in name
    ensures NameAndIndex(name + "[last]") == Indexed(name, LAST)
  {
    LastNameText(name);
    hide NameAndIndex, Trim;
    LastNameFound(name + "[last]", name);
    TrimKeeps("last");
    IndexText(name + "[last]", |name|, |name| + 5);
  }

  lemma LastNameFound(s: string, name: string)
    requires '[' !in name && ']' !in name
    requires |s| == |name| + 6 && s[|name|] == '[' && s[|name| + 5] == ']' && s[..|name|] == name
    requires forall i | |name| <= i < |name| + 5 :: s[i] != ']'
    ensures Find(s, '[') == |name| && Find(s, ']') == |name| + 5
  {
  }

  lemma IndexText(s: string, pos: nat, end: nat)
    requires 0 < pos < end && |s| == end + 1 && Find(s, '[') == pos && Find(s, ']') == end
    requires Trim(s[pos + 1..end]) == "last"
    ensures NameAndIndex(s) == Indexed(s[..pos], LAST)
  {
  }

  lemma LastNameText(name: string)
    ensures var s := name + "[last]";
      && |s| == |name| + 6 && s[|name|] == '[' && s[|name| + 5] == ']'
      && s[..|name|] == name && s[|name| + 1..|name| + 5] == "last"
      && forall i | |name| <= i < |name| + 5 :: s[i] != ']'
  {
  }

  /** The path name+ adds a sibling, and name[last] finds it; unless a child is itself called
      "name+", which the path then selects instead. */
  lemma PlusIsLast(t: Node, name: string)
    requires name != "" && Free(name, {'/', '[', ']'}) && Distinct(t)
    ensures var c := Create(t, name + "+");
      && c.at.Ok?
      && (Get(c.tree, name + "[last]") == Some(c.at.value) <==> ChildByName(t.children, name + "+").None?)
  {
    hide Free, NameAndIndex, NewName, Get, Create, ChildByName, LastNamed, WithChild, Distinct;
    var plus, last := name + "+", name + "[last]";
    FreeName(name);
    LastName(name);
    PlusName(name);
    OneName(t, plus);
    OneName(Create(t, plus).tree, last);
    if ChildByName(t.children, plus).None? {
      PlusAdds(t, name);
    } else {
      PlusFinds(t, name, ChildByName(t.children, plus).value);
    }
  }

  lemma PlusName(name: string)
    requires name != "" && '[' !in name
    ensures NewName(name + "+") == name
  {
    hide Trim;
    FindUnique(name, '[', 0, |name|);
    assert (name + "+")[..|name|] == name;
  }

  lemma FreeName(name: string)
    requires Free(name, {'/', '[', ']'})
    ensures '[' !in name && ']' !in name && '/' !in name + "+" && '/' !in name + "[last]"
  {
  }

  lemma PlusAdds(t: Node, name: string)
    requires NameAndIndex(name + "[last]") == Indexed(name, LAST) && NewName(name + "+") == name != ""
    requires Distinct(t) && ChildByName(t.children, name + "+").None?
    ensures var next := Next(t, name + "+");
      next.Ok? && ChildByName(next.value.tree.children, name + "[last]") == Some(next.value.child)
  {
    hide NameAndIndex, NewName, ChildByName, LastNamed, WithChild, Distinct;
    NewSibling(t, NewNode(name));
    LastSelected(WithChild(t, NewNode(name)).children, name);
  }

  lemma PlusFinds(t: Node, name: string, k: nat)
    requires NameAndIndex(name + "[last]") == Indexed(name, LAST) && name != "" && '[' !in name
    requires Distinct(t) && ChildByName(t.children, name + "+") == Some(k)
    ensures Next(t, name + "+") == Ok(Stepped(t, k)) && ChildByName(t.children, name + "[last]") != Some(k)
  {
    hide NameAndIndex, NewName, ChildByName, LastNamed, WithChild, Distinct;
    PlusSelected(t.children, name, k);
    DistinctSiblings(t);
    LastSelected(t.children, name);
  }

  lemma DistinctSiblings(t: Node)
    requires Distinct(t)
    ensures SiblingsDistinct(t.children)
  {
  }

  lemma PlusSelected(children: seq<Node>, name: string, k: nat)
    requires name != "" && '[' !in name && ChildByName(children, name + "+") == Some(k)
    ensures LastNamed(children, name) != k
  {
  }

  /** Paths of a single name. */
  lemma OneName(t: Node, name: string)
    requires name != "" && '/' !in name
    ensures var k := ChildByName(t.children, name);
      Get(t, name) == if k.Some? then Some([k.value]) else None
    ensures var next := Next(t, name);
      Create(t, name) == if next.Ok? then Created(next.value.tree, Ok([next.value.child]))
                         else Created(t, Throw(next.error))
  {
  }

  lemma WholePath(path: string)
    requires '/' !in path
    ensures CarCdr(path) == Path(path, "")
  {
  }

  lemma NewSibling(t: Node, c: Node)
    requires Distinct(t)
    ensures var t' := WithChild(t, c);
      && |t'.children| == |t.children| + 1
      && SiblingsDistinct(t'.children) && LastNamed(t'.children, c.name) == |t.children|
  {
    hide SiblingsDistinct, MaxIndex;
    NewSiblingDistinct(t.children, c.(index := MaxIndex(t.children, c.name) + 1));
  }

  lemma LastSelected(children: seq<Node>, name: string)
    requires SiblingsDistinct(children) && NameAndIndex(name + "[last]") == Indexed(name, LAST)
    ensures var k := LastNamed(children, name);
      ChildByName(children, name + "[last]") == if k < |children| then Some(k) else None
  {
  }

  // --- Removal ----------------------------------------------------------------------------

  /** Removing the child that a name selects leaves nothing for the name to select, even where
      siblings of the name are left: then the path meets a gap, and what createProperty adds there
      is not found either. */
  lemma RemovalLeavesGap(t: Node, name: string, k: nat)
    requires PlainName(name) && '/' !in name && Distinct(t) && ChildByName(t.children, name) == Some(k)
    ensures var t' := WithoutChild(t, k);
      && Get(t', name) == None
      && (MeetsGap(t', name) <==> exists j :: 0 <= j < |t.children| && j != k && t.children[j].name == name)
  {
    var t' := WithoutChild(t, k);
    OneName(t', name);
    WholePath(name);
    PlainSelects(t.children, name);
    PlainSelects(t'.children, name);
    hide CarCdr, ChildByName, PlainName, Get, MatchFrom;
    DistinctSiblings(t);
    WithoutSelects(t, name, k);
    WithoutNamed(t, name, k);
  }

  lemma WithoutSelects(t: Node, name: string, k: nat)
    requires k < |t.children| && SiblingsDistinct(t.children) && MatchFrom(t.children, name, 0, 0) == k
    ensures var children := WithoutChild(t, k).children;
      MatchFrom(children, name, 0, 0) == |children|
  {
  }

  lemma WithoutNamed(t: Node, name: string, k: nat)
    requires k < |t.children|
    ensures HasNamed(WithoutChild(t, k).children, name)
       <==> exists j :: 0 <= j < |t.children| && j != k && t.children[j].name == name
  {
    var children := WithoutChild(t, k).children;
    if j :| 0 <= j < |t.children| && j != k && t.children[j].name == name {
      assert children[if j < k then j else j - 1].name == name;
    }
    if i :| 0 <= i < |children| && children[i].name == name {
      assert t.children[if i < k then i else i + 1] == children[i];
    }
  }
}
