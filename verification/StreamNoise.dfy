/** What the DMR reader ignores: foreign elements, text outside a Value, and the way the
    text of a Value is cut into pieces. */
module StreamNoise {
  import opened Wrappers
  import opened XmlStream
  import opened D4Parser

  // ---------------------------------------------------------------- foreign elements

  /** A subtree in which no element belongs to the DAP4 namespace. */
  predicate PureForeign(n: Node) {
    match n
    case Text(_) => true
    case Elem(u, _, _, kids) => u != DAP4_NS && forall k :: k in kids ==> PureForeign(k)
  }

  predicate Live(p: Reader) { p.stopped || p.s.Push? }

  lemma {:induction false} StoppedStays(p: Reader, ns: seq<Node>)
    requires p.stopped
    ensures RunNodes(p, ns) == p
    decreases ns, 0
  {
    if ns != [] {
      match ns[0] {
        case Text(_) =>
        case Elem(u, l, xa, kids) => StoppedStays(Start(p, u, l, xa), kids);
      }
      StoppedStays(p, ns[1..]);
    }
  }

  /** A foreign subtree leaves the whole reader as it was, whatever its state. */
  lemma {:induction false} ForeignIgnored(p: Reader, n: Node)
    requires Live(p) && n.Elem? && PureForeign(n)
    ensures RunNode(p, n) == p
    decreases n, 1
  {
    if p.stopped {
      StoppedStays(p, n.children);
    } else {
      ForeignListIgnored(Start(p, n.uri, n.name, n.xattrs), n.children);
    }
  }

  lemma {:induction false} ForeignListIgnored(p: Reader, ns: seq<Node>)
    requires p.s.Push? && !p.stopped && p.s.top in {NotDap4Element, ParserError}
    requires forall k :: k in ns ==> PureForeign(k)
    ensures RunNodes(p, ns) == p
    decreases ns, 0
  {
    if ns != [] {
      if ns[0].Elem? { ForeignIgnored(p, ns[0]); }
      ForeignListIgnored(p, ns[1..]);
    }
  }

  /** The number of DAP4 elements in a subtree. */
  function DapCount(n: Node): nat
    decreases n, 1
  {
    match n
    case Text(_) => 0
    case Elem(u, _, _, kids) => (if u == DAP4_NS then 1 else 0) + DapCounts(kids)
  }

  function DapCounts(ns: seq<Node>): nat
    decreases ns, 0
  {
    if ns == [] then 0 else DapCount(ns[0]) + DapCounts(ns[1..])
  }

  lemma {:induction false} DapCountZero(n: Node)
    ensures DapCount(n) == 0 <==> PureForeign(n)
    decreases n, 1
  {
    if n.Elem? { DapCountsZero(n.children); }
  }

  lemma {:induction false} DapCountsZero(ns: seq<Node>)
    ensures DapCounts(ns) == 0 <==> forall k :: k in ns ==> PureForeign(k)
    decreases ns, 0
  {
    if ns != [] {
      DapCountZero(ns[0]);
      DapCountsZero(ns[1..]);
      assert forall k :: k in ns <==> k == ns[0] || k in ns[1..];
    }
  }

  /** A reader nested this deep in foreign elements. */
  function Foreign(k: nat, base: Stack<ParseState>): Stack<ParseState> {
    if k == 0 then base else Push(NotDap4Element, Foreign(k - 1, base))
  }

  lemma {:induction false} ForeignDepth(k: nat, base: Stack<ParseState>)
    ensures Depth(Foreign(k, base)) == k + Depth(base)
  {
    if k > 0 { ForeignDepth(k - 1, base); }
  }

  lemma TagsInForeign(p: Reader, u: string, l: string, xa: XmlAttrs)
    requires !p.stopped && p.s.Push? && p.s.top == NotDap4Element
    ensures Start(p, u, l, xa) == if u == DAP4_NS then p else Enter(p, NotDap4Element)
    ensures End(p, u, l) == p.(s := p.s.rest)
  {
  }

  /** Inside foreign elements every DAP4 element pops one level too many. */
  lemma {:induction false} DapInsideForeignPops(p: Reader, ns: seq<Node>, k: nat, base: Stack<ParseState>)
    requires !p.stopped && p.s == Foreign(k, base) && k > DapCounts(ns)
    ensures RunNodes(p, ns) == p.(s := Foreign(k - DapCounts(ns), base))
    decreases ns, 0
  {
    hide Start, End;
    if ns != [] {
      DapNodeInsideForeignPops(p, ns[0], k, base);
      DapInsideForeignPops(RunNode(p, ns[0]), ns[1..], k - DapCount(ns[0]), base);
    }
  }

  lemma {:induction false} DapNodeInsideForeignPops(p: Reader, n: Node, k: nat, base: Stack<ParseState>)
    requires !p.stopped && p.s == Foreign(k, base) && k > DapCount(n)
    ensures RunNode(p, n) == p.(s := Foreign(k - DapCount(n), base))
    decreases n, 1
  {
    hide Start, End;
    if n.Elem? {
      var up := if n.uri == DAP4_NS then 0 else 1;
      TagsInForeign(p, n.uri, n.name, n.xattrs);
      var p1 := Start(p, n.uri, n.name, n.xattrs);
      DapInsideForeignPops(p1, n.children, k + up, base);
      TagsInForeign(RunNodes(p1, n.children), n.uri, n.name, n.xattrs);
    }
  }

  /** An element is invisible to the reader in every state exactly when no element in its
      subtree belongs to the DAP4 namespace. */
  lemma ForeignExactlyIgnored(n: Node)
    requires n.Elem?
    ensures (forall p :: Live(p) ==> RunNode(p, n) == p) <==> PureForeign(n)
    ensures n.uri == "http://xml.opendap.org/ns/DAP/4.0#" ==> !PureForeign(n)
  {
    if PureForeign(n) {
      forall p | Live(p) ensures RunNode(p, n) == p { ForeignIgnored(p, n); }
    } else {
      DapCountZero(n);
      var k := DapCount(n) + 1;
      var p := NEW_READER.(s := Foreign(k, Empty));
      DapNodeInsideForeignPops(p, n, k, Empty);
      ForeignDepth(k, Empty);
      ForeignDepth(1, Empty);
      assert Live(p) && RunNode(p, n) != p;
    }
  }

  // ---------------------------------------------------------------- the state stack

  predicate IsBase(x: ParseState) { x in {ParserStart, ParserEnd} }

  /** The start and end states occur at the bottom of the state stack and only there. */
  predicate Sound(s: Stack<ParseState>) {
    s.Push? && if s.rest.Empty? then IsBase(s.top) else !IsBase(s.top) && Sound(s.rest)
  }

  /** Sound, and not inside the text of a Value. */
  predicate Quiet(s: Stack<ParseState>) {
    s.Push? && s.top != InsideAttributeValue
    && if s.rest.Empty? then IsBase(s.top) else !IsBase(s.top) && Quiet(s.rest)
  }

  /** A Value is open, and k foreign elements are open inside it. */
  predicate InValue(s: Stack<ParseState>, below: Stack<ParseState>, k: nat) {
    s.Push? && if k == 0 then s == Push(InsideAttributeValue, below)
               else s.top == NotDap4Element && InValue(s.rest, below, k - 1)
  }

  ghost predicate AtMost(s: Stack<ParseState>, below: Stack<ParseState>, k: nat) {
    exists j: nat :: j <= k && InValue(s, below, j)
  }

  ghost function Nesting(s: Stack<ParseState>, below: Stack<ParseState>, k: nat): (j: nat)
    requires AtMost(s, below, k)
    ensures j <= k && InValue(s, below, j)
  {
    var j: nat :| j <= k && InValue(s, below, j); j
  }

  lemma {:induction s} QuietIsSound(s: Stack<ParseState>)
    requires Quiet(s)
    ensures Sound(s)
  {
  }

  /** b is a with states on top that are neither base states nor the text of a Value. */
  predicate Grown(a: Stack<ParseState>, b: Stack<ParseState>) {
    b == a || (b.Push? && !IsBase(b.top) && b.top != InsideAttributeValue && Grown(a, b.rest))
  }

  lemma {:induction false} GrownKeeps(a: Stack<ParseState>, b: Stack<ParseState>)
    requires Grown(a, b)
    ensures Quiet(a) ==> Quiet(b)
    ensures Sound(a) ==> Sound(b)
  {
    if b != a { GrownKeeps(a, b.rest); }
  }

  lemma {:induction false} GrownTrans(a: Stack<ParseState>, b: Stack<ParseState>, c: Stack<ParseState>)
    requires Grown(a, b) && Grown(b, c)
    ensures Grown(a, c)
  {
    if c != b { GrownTrans(a, b, c.rest); }
  }

  lemma OnTop(a: Stack<ParseState>, x: ParseState, y: ParseState)
    requires !IsBase(x) && x != InsideAttributeValue && !IsBase(y) && y != InsideAttributeValue
    ensures Grown(a, Push(x, a)) && Grown(a, Push(y, Push(x, a)))
  {
    assert Grown(a, Push(x, a));
  }

  lemma AttributeGrown(p: Reader, name: string, xa: XmlAttrs)
    ensures Grown(p.s, ProcessAttribute(p, name, xa).0.s)
  {
    OnTop(p.s, ParserError, ParserError);
    OnTop(p.s, InsideAttributeContainer, InsideAttribute);
    OnTop(p.s, InsideAttribute, InsideAttribute);
  }

  lemma DimensionGrown(p: Reader, name: string, xa: XmlAttrs)
    ensures Grown(p.s, ProcessDimension(p, name, xa).0.s)
  {
    OnTop(p.s, ParserError, ParserError);
  }

  lemma VariableGrown(p: Reader, name: string, xa: XmlAttrs)
    ensures Grown(p.s, ProcessVariable(p, name, xa).0.s)
  {
    OnTop(p.s, ParserError, InsideSimpleType);
    OnTop(p.s, InsideSimpleType, InsideConstructor);
    OnTop(p.s, InsideConstructor, InsideConstructor);
  }

  lemma DefinitionsGrown(p: Reader, name: string, xa: XmlAttrs)
    ensures Grown(p.s, ProcessEnumDef(p, name, xa).0.s)
    ensures Grown(p.s, ProcessDimensionDef(p, name, xa).0.s)
    ensures Grown(p.s, ProcessGroup(p, name, xa).0.s)
    ensures Grown(p.s, ProcessEnumConst(p, name, xa).0.s)
  {
    OnTop(p.s, ParserError, ParserError);
  }

  lemma StartInVariableGrown(p: Reader, name: string, xa: XmlAttrs)
    ensures Grown(p.s, StartInVariable(p, name, xa).s)
  {
    AttributeGrown(p, name, xa);
    var (p1, isAttr) := ProcessAttribute(p, name, xa);
    DimensionGrown(p1, name, xa);
    var (p2, isDim) := ProcessDimension(p1, name, xa);
    OnTop(p2.s, ParserError, ParserError);
    OnTop(p2.s, InsideDim, InsideDim);
    GrownTrans(p.s, p1.s, p2.s);
    if !isAttr { GrownTrans(p.s, p2.s, StartInVariable(p, name, xa).s); }
  }

  lemma StartInGroupGrown(p: Reader, name: string, xa: XmlAttrs)
    ensures Grown(p.s, StartInGroup(p, name, xa).s)
  {
    hide ProcessEnumDef, ProcessDimensionDef, ProcessGroup, ProcessVariable, ProcessAttribute;
    var q := StartInGroup(p, name, xa);
    var (p1, isEnum) := ProcessEnumDef(p, name, xa);
    DefinitionsGrown(p, name, xa);
    OnTop(p1.s, InsideEnumDef, InsideEnumDef);
    if isEnum {
      GrownTrans(p.s, p1.s, q.s);
      return;
    }
    var (p2, isDim) := ProcessDimensionDef(p1, name, xa);
    DefinitionsGrown(p1, name, xa);
    GrownTrans(p.s, p1.s, p2.s);
    OnTop(p2.s, InsideDimDef, InsideDimDef);
    if isDim {
      GrownTrans(p.s, p2.s, q.s);
      return;
    }
    var (p3, isGroup) := ProcessGroup(p2, name, xa);
    DefinitionsGrown(p2, name, xa);
    GrownTrans(p.s, p2.s, p3.s);
    OnTop(p3.s, InsideGroup, InsideGroup);
    if isGroup {
      GrownTrans(p.s, p3.s, q.s);
      return;
    }
    var (p4, isVar) := ProcessVariable(p3, name, xa);
    VariableGrown(p3, name, xa);
    GrownTrans(p.s, p3.s, p4.s);
    if isVar { return; }
    var (p5, isAttr) := ProcessAttribute(p4, name, xa);
    AttributeGrown(p4, name, xa);
    GrownTrans(p.s, p4.s, p5.s);
    OnTop(p5.s, ParserError, ParserError);
    if !isAttr { GrownTrans(p.s, p5.s, q.s); }
  }

  /** A start tag only pushes states, and only a Value opens the text of a Value. */
  lemma StartGrown(p: Reader, uri: string, name: string, xa: XmlAttrs)
    requires p.s.Push? && !p.stopped
    ensures var q := Start(p, uri, name, xa);
            Grown(p.s, q.s) || (name == "Value" && q.s == Push(InsideAttributeValue, p.s))
  {
    if p.s.top != ParserError && uri != DAP4_NS {
      OnTop(p.s, NotDap4Element, ParserError);
    } else {
      match p.s.top
      case ParserStart =>
        var p1 := if name != "Dataset" then Err(p) else p;
        var p2 := if "name" in xa then p1 else Err(p1);
        OnTop(p.s, ParserError, ParserError);
        OnTop(p2.s, InsideDataset, InsideDataset);
        GrownTrans(p.s, p2.s, Push(InsideDataset, p2.s));
      case InsideDataset => StartInGroupGrown(p, name, xa);
      case InsideGroup => StartInGroupGrown(p, name, xa);
      case InsideAttributeContainer => AttributeThenError(p, name, xa);
      case InsideAttribute => AttributeThenError(p, name, xa);
      case InsideEnumDef =>
        var (q1, ok) := ProcessEnumConst(p, name, xa);
        DefinitionsGrown(p, name, xa);
        OnTop(q1.s, InsideEnumConst, ParserError);
        OnTop(q1.s, ParserError, ParserError);
        GrownTrans(p.s, q1.s, Push(InsideEnumConst, q1.s));
        GrownTrans(p.s, q1.s, Push(ParserError, q1.s));
      case InsideSimpleType => StartInVariableGrown(p, name, xa);
      case InsideConstructor =>
        var (q1, ok) := ProcessVariable(p, name, xa);
        VariableGrown(p, name, xa);
        StartInVariableGrown(q1, name, xa);
        GrownTrans(p.s, q1.s, StartInVariable(q1, name, xa).s);
      case ParserUnknown => OnTop(p.s, ParserUnknown, ParserUnknown);
      case _ =>
    }
  }

  lemma AttributeThenError(p: Reader, name: string, xa: XmlAttrs)
    ensures Grown(p.s, ProcessAttribute(p, name, xa).0.s)
    ensures Grown(p.s, Err(ProcessAttribute(p, name, xa).0).s)
    ensures name == "Value" ==> ProcessAttribute(p, name, xa) == (p, false)
  {
    AttributeGrown(p, name, xa);
    var q := ProcessAttribute(p, name, xa).0;
    OnTop(q.s, ParserError, ParserError);
    GrownTrans(p.s, q.s, Err(q).s);
    assert "Value"[0] != "Attribute"[0];
  }

  lemma StartQuiet(p: Reader, uri: string, name: string, xa: XmlAttrs)
    requires Quiet(p.s) && !p.stopped
    ensures var q := Start(p, uri, name, xa);
            Quiet(q.s) || (name == "Value" && q.s == Push(InsideAttributeValue, p.s))
  {
    StartGrown(p, uri, name, xa);
    var q := Start(p, uri, name, xa);
    if Grown(p.s, q.s) { GrownKeeps(p.s, q.s); }
  }

  lemma StartSound(p: Reader, uri: string, name: string, xa: XmlAttrs)
    requires Sound(p.s) && !p.stopped
    ensures Sound(Start(p, uri, name, xa).s)
  {
    StartGrown(p, uri, name, xa);
    var q := Start(p, uri, name, xa);
    if Grown(p.s, q.s) { GrownKeeps(p.s, q.s); }
  }

  lemma EndValueKeeps(p: Reader)
    ensures EndValue(p).s == p.s && (p.stopped ==> EndValue(p).stopped)
  {
  }

  lemma EndVariableShrinks(p: Reader, simple: bool)
    requires p.s.Push?
    ensures var q := EndVariable(p, simple); q.stopped || q.s == p.s || q.s == p.s.rest
  {
  }

  lemma DefinitionShrinks(p: Reader)
    requires p.s.Push?
    ensures AddEnumDef(p).stopped || AddEnumDef(p).s == p.s.rest
    ensures AddDimDef(p).stopped || AddDimDef(p).s == p.s.rest
  {
  }

  /** An end tag takes at most one state off the stack, closes the data set, or leaves the
      stack with an error on top. */
  lemma EndShrinks(p: Reader, uri: string, name: string)
    requires p.s.Push? && !p.stopped
    ensures var q := End(p, uri, name);
            || q.stopped || q.s == p.s || q.s == p.s.rest
            || q.s == Push(ParserFatalError, p.s) || q.s == Push(ParserError, p.s)
            || (p.s.top == InsideDataset && p.s.rest.Push?
                && (q.s == Push(ParserFatalError, p.s.rest)
                    || (p.s.rest.top == ParserStart && q.s == Push(ParserEnd, p.s.rest.rest))))
    ensures IsBase(p.s.top) ==> End(p, uri, name).s != p.s.rest
  {
    hide EndValue, EndVariable, AddEnumDef, AddDimDef;
    match p.s.top
    case InsideAttributeValue => EndValueKeeps(PopState(ErrUnless(p, name == "Value")));
    case InsideEnumDef => DefinitionShrinks(ErrUnless(p, name == "Enumeration"));
    case InsideDimDef => DefinitionShrinks(ErrUnless(p, name == "Dimension"));
    case InsideSimpleType => EndVariableShrinks(p, true);
    case InsideConstructor => EndVariableShrinks(p, false);
    case _ =>
  }

  lemma EndQuiet(p: Reader, uri: string, name: string)
    requires Quiet(p.s) && !p.stopped
    ensures var q := End(p, uri, name); q.stopped || Quiet(q.s)
  {
    EndShrinks(p, uri, name);
  }

  lemma EndSound(p: Reader, uri: string, name: string)
    requires Sound(p.s) && !p.stopped
    ensures var q := End(p, uri, name); q.stopped || Sound(q.s)
  {
    EndShrinks(p, uri, name);
  }

  lemma {:induction false} NodesSound(p: Reader, ns: seq<Node>)
    requires p.stopped || Sound(p.s)
    ensures var q := RunNodes(p, ns); q.stopped || Sound(q.s)
    decreases ns
  {
    if p.stopped {
      StoppedStays(p, ns);
    } else if ns != [] {
      if ns[0].Elem? {
        var e := ns[0];
        StartSound(p, e.uri, e.name, e.xattrs);
        var q := Start(p, e.uri, e.name, e.xattrs);
        NodesSound(q, e.children);
        var r := RunNodes(q, e.children);
        if !r.stopped { EndSound(r, e.uri, e.name); }
      }
      NodesSound(RunNode(p, ns[0]), ns[1..]);
    }
  }

  lemma StartInValue(p: Reader, e: Node, below: Stack<ParseState>, k: nat)
    requires e.Elem? && !p.stopped && InValue(p.s, below, k)
    ensures var p1 := Start(p, e.uri, e.name, e.xattrs);
      !p1.stopped && InValue(p1.s, below, k + if e.uri == DAP4_NS then 0 else 1)
  {
  }

  lemma EndInValue(r: Reader, e: Node, below: Stack<ParseState>, k: nat)
    requires e.Elem? && !r.stopped && Quiet(below)
    requires Quiet(r.s) || AtMost(r.s, below, k + if e.uri == DAP4_NS then 0 else 1)
    ensures var q := End(r, e.uri, e.name); q.stopped || Quiet(q.s) || AtMost(q.s, below, k)
  {
    var up := if e.uri == DAP4_NS then 0 else 1;
    if Quiet(r.s) {
      EndQuiet(r, e.uri, e.name);
    } else {
      var q := End(r, e.uri, e.name);
      var j := Nesting(r.s, below, k + up);
      if j > 0 {
        assert q.stopped || InValue(q.s, below, j - 1);
      } else {
        assert q.stopped || q.s == below || InValue(q.s, below, 0);
      }
    }
  }

  /** While a Value is open the reader stays in it, or leaves it at a nested end tag of that
      name; foreign elements never pile up. */
  lemma {:induction false} NodesInValue(p: Reader, ns: seq<Node>, below: Stack<ParseState>, k: nat)
    requires !p.stopped && InValue(p.s, below, k) && Quiet(below)
    ensures var q := RunNodes(p, ns);
            q.stopped || Quiet(q.s) || AtMost(q.s, below, k)
    decreases ns
  {
    hide Start, End;
    if ns != [] {
      var q := RunNode(p, ns[0]);
      if ns[0].Elem? {
        var e := ns[0];
        var up := if e.uri == DAP4_NS then 0 else 1;
        var p1 := Start(p, e.uri, e.name, e.xattrs);
        StartInValue(p, e, below, k);
        NodesInValue(p1, e.children, below, k + up);
        var r := RunNodes(p1, e.children);
        if r.stopped { EndStopped(r, e.uri, e.name); } else { EndInValue(r, e, below, k); }
      }
      if q.stopped {
        StoppedStays(q, ns[1..]);
      } else if Quiet(q.s) {
        NodesQuiet(q, ns[1..]);
      } else {
        NodesInValue(q, ns[1..], below, Nesting(q.s, below, k));
      }
    }
  }

  lemma EndStopped(p: Reader, uri: string, name: string)
    requires p.stopped
    ensures End(p, uri, name).stopped
  {
  }

  lemma {:induction false} NodeQuiet(p: Reader, n: Node)
    requires p.stopped || Quiet(p.s)
    ensures var q := RunNode(p, n); q.stopped || Quiet(q.s)
    decreases n, 1
  {
    if n.Elem? && !p.stopped {
      StartQuiet(p, n.uri, n.name, n.xattrs);
      var q := Start(p, n.uri, n.name, n.xattrs);
      var r := RunNodes(q, n.children);
      if q.stopped {
        StoppedStays(q, n.children);
      } else if Quiet(q.s) {
        NodesQuiet(q, n.children);
        if !r.stopped { EndQuiet(r, n.uri, n.name); }
      } else {
        NodesInValue(q, n.children, q.s.rest, 0);
        if !r.stopped && Quiet(r.s) { EndQuiet(r, n.uri, n.name); }
      }
    } else if n.Elem? {
      StoppedStays(Start(p, n.uri, n.name, n.xattrs), n.children);
    }
  }

  lemma {:induction false} NodesQuiet(p: Reader, ns: seq<Node>)
    requires p.stopped || Quiet(p.s)
    ensures var q := RunNodes(p, ns); q.stopped || Quiet(q.s)
    decreases ns, 0
  {
    if ns != [] {
      NodeQuiet(p, ns[0]);
      NodesQuiet(RunNode(p, ns[0]), ns[1..]);
    }
  }

  // ---------------------------------------------------------------- stripping a document

  /** One more piece of text in front of a list of nodes. */
  function TextCons(x: string, ns: seq<Node>): seq<Node> {
    if x == "" then ns
    else if ns != [] && ns[0].Text? then [Text(x + ns[0].chars)] + ns[1..]
    else [Text(x)] + ns
  }

  /** A document without its foreign subtrees and without text outside Value elements, the
      text inside them being joined up; `keep` says that a Value is open. */
  function Strip(ns: seq<Node>, keep: bool): seq<Node> {
    if ns == [] then []
    else
      var rest := Strip(ns[1..], keep);
      match ns[0]
      case Text(x) => if keep then TextCons(x, rest) else rest
      case Elem(u, l, xa, kids) =>
        if PureForeign(ns[0]) then rest
        else [Elem(u, l, xa, Strip(kids, keep || l == "Value"))] + rest
  }

  lemma RunText(p: Reader, x: string, ns: seq<Node>)
    ensures RunNodes(p, [Text(x)] + ns) == RunNodes(Chars(p, x), ns)
  {
    hide Chars;
    RunOne(p, Text(x), ns);
  }

  lemma CharsTwice(p: Reader, x: string, y: string)
    requires Live(p)
    ensures Chars(Chars(p, x), y) == Chars(p, x + y) && Chars(p, "") == p
  {
    assert p.charData + (x + y) == (p.charData + x) + y && p.charData + "" == p.charData;
  }

  lemma RunTextCons(p: Reader, x: string, ns: seq<Node>)
    requires Live(p)
    ensures RunNodes(p, TextCons(x, ns)) == RunNodes(Chars(p, x), ns)
  {
    hide RunNodes, Chars, Live;
    CharsTwice(p, x, "");
    if ns != [] && ns[0].Text? {
      var y := ns[0].chars;
      RunText(p, x + y, ns[1..]);
      CharsTwice(p, x, y);
      assert ns == [Text(y)] + ns[1..];
      RunText(Chars(p, x), y, ns[1..]);
    } else {
      RunText(p, x, ns);
    }
  }

  /** Stripping a document does not change what the reader makes of it, for any document
      at all and from any state with a sound stack. */
  lemma {:induction false} StripInvisible(p: Reader, ns: seq<Node>, keep: bool)
    requires p.stopped || (if keep then Sound(p.s) else Quiet(p.s))
    ensures RunNodes(p, Strip(ns, keep)) == RunNodes(p, ns)
    decreases ns
  {
    if p.stopped {
      StoppedStays(p, ns);
      StoppedStays(p, Strip(ns, keep));
    } else if ns != [] {
      var rest := Strip(ns[1..], keep);
      var q := RunNode(p, ns[0]);
      if keep { NodesSound(p, [ns[0]]); } else { NodeQuiet(p, ns[0]); }
      assert RunNodes(p, [ns[0]]) == q;
      StripInvisible(q, ns[1..], keep);
      match ns[0] {
        case Text(x) => if keep { RunTextCons(p, x, rest); }
        case Elem(u, l, xa, kids) =>
          if PureForeign(ns[0]) {
            ForeignIgnored(p, ns[0]);
          } else {
            if keep { StartSound(p, u, l, xa); } else { StartQuiet(p, u, l, xa); }
            var p1 := Start(p, u, l, xa);
            if l == "Value" && !keep && !Quiet(p1.s) { QuietIsSound(p1.s.rest); }
            if l == "Value" && !keep && Quiet(p1.s) { QuietIsSound(p1.s); }
            StripInvisible(p1, kids, keep || l == "Value");
            RunOne(p, Elem(u, l, xa, Strip(kids, keep || l == "Value")), rest);
          }
      }
    }
  }
}
