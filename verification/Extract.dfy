module Extract {
  // Collecting the readable text of a page with an explicit stack (extract.rs).

  /** `Other` stands for comments and the like, which hold no readable text. */
  datatype Node = Text(text: string) | Element(name: string, children: seq<Node>) | Other

  const SKIPPED: set<string> :=
    {"script", "style", "noscript", "template", "nav", "footer", "header", "aside", "form", "iframe", "svg"}

  const MAX_DEPTH := 256

  /** Whitespace normalization of one text, a library function here. */
  type Normalizer = string -> string

  function Emit(normalize: Normalizer, text: string): seq<string> {
    if normalize(text) == [] then [] else [normalize(text)]
  }

  // ---- The recursive walk ----

  /** Pre-order walk below a node at `depth`: skipped elements and elements at the depth bound are not entered. */
  function Walk(normalize: Normalizer, node: Node, depth: nat): seq<string>
    decreases node, 1
  {
    match node
    case Text(text) => Emit(normalize, text)
    case Other => []
    case Element(name, children) =>
      if name in SKIPPED || depth >= MAX_DEPTH then [] else WalkAll(normalize, children, depth + 1)
  }

  function WalkAll(normalize: Normalizer, nodes: seq<Node>, depth: nat): seq<string>
    decreases nodes, 0
  {
    if nodes == [] then [] else Walk(normalize, nodes[0], depth) + WalkAll(normalize, nodes[1..], depth)
  }

  // ---- The walk with a stack ----

  datatype Frame = Frame(node: Node, depth: nat)

  /** What the stack still has to emit, from its top (the end) down. */
  function Pending(normalize: Normalizer, stack: seq<Frame>): seq<string> {
    if stack == [] then []
    else
      var top := stack[|stack| - 1];
      Walk(normalize, top.node, top.depth) + Pending(normalize, stack[..|stack| - 1])
  }

  function Size(node: Node): nat
    decreases node, 1
  {
    match node
    case Element(_, children) => 1 + SizeAll(children)
    case _ => 1
  }

  function SizeAll(nodes: seq<Node>): nat
    decreases nodes, 0
  {
    if nodes == [] then 0 else Size(nodes[0]) + SizeAll(nodes[1..])
  }

  function StackSize(stack: seq<Frame>): nat {
    if stack == [] then 0 else Size(stack[|stack| - 1].node) + StackSize(stack[..|stack| - 1])
  }

  lemma PendingTop(normalize: Normalizer, stack: seq<Frame>, top: Frame)
    ensures Pending(normalize, stack + [top]) == Walk(normalize, top.node, top.depth) + Pending(normalize, stack)
    ensures StackSize(stack + [top]) == Size(top.node) + StackSize(stack)
  {
    assert (stack + [top])[..|stack|] == stack;
  }

  method PushReversed(normalize: Normalizer, children: seq<Node>, depth: nat, stack: seq<Frame>) returns (stack': seq<Frame>)
    ensures Pending(normalize, stack') == WalkAll(normalize, children, depth) + Pending(normalize, stack)
    ensures StackSize(stack') == SizeAll(children) + StackSize(stack)
  {
    hide Pending, StackSize, Walk, Size;
    stack' := stack;
    var i := |children|;
    while i > 0
      invariant 0 <= i <= |children|
      invariant Pending(normalize, stack') == WalkAll(normalize, children[i..], depth) + Pending(normalize, stack)
      invariant StackSize(stack') == SizeAll(children[i..]) + StackSize(stack)
    {
      i := i - 1;
      PendingTop(normalize, stack', Frame(children[i], depth));
      stack' := stack' + [Frame(children[i], depth)];
      assert children[i..][0] == children[i] && children[i..][1..] == children[i + 1..];
    }
    assert children[0..] == children;
  }

  lemma TopIsDone(normalize: Normalizer, parts: seq<string>, stack: seq<Frame>)
    requires stack != []
    ensures var top, rest := stack[|stack| - 1], stack[..|stack| - 1];
      && parts + Pending(normalize, stack) == parts + Walk(normalize, top.node, top.depth) + Pending(normalize, rest)
      && StackSize(stack) == Size(top.node) + StackSize(rest) && Size(top.node) > 0
      && (top.node.Element? ==> Size(top.node) == 1 + SizeAll(top.node.children))
  {
    hide Walk;
    var top, rest := stack[|stack| - 1], stack[..|stack| - 1];
    assert parts + (Walk(normalize, top.node, top.depth) + Pending(normalize, rest)) ==
      parts + Walk(normalize, top.node, top.depth) + Pending(normalize, rest);
  }

  /** One turn of the walk: the top of the stack is read, skipped, or replaced by its children. */
  method ReadTop(normalize: Normalizer, top: Frame, rest: seq<Frame>, parts: seq<string>) returns (parts': seq<string>, stack: seq<Frame>)
    ensures parts' + Pending(normalize, stack) == parts + Walk(normalize, top.node, top.depth) + Pending(normalize, rest)
    ensures StackSize(stack) < Size(top.node) + StackSize(rest)
  {
    parts', stack := parts, rest;
    match top.node {
      case Text(text) => parts' := parts + Emit(normalize, text);
      case Other =>
      case Element(name, children) =>
        if name !in SKIPPED && top.depth < MAX_DEPTH {
          stack := PushReversed(normalize, children, top.depth + 1, rest);
          assert parts + (WalkAll(normalize, children, top.depth + 1) + Pending(normalize, rest)) ==
            parts + WalkAll(normalize, children, top.depth + 1) + Pending(normalize, rest);
        }
    }
  }

  /** The stack walk emits exactly what the recursive walk does, and ends on every tree. */
  method CollectReadableText(normalize: Normalizer, root: seq<Node>) returns (parts: seq<string>)
    ensures parts == WalkAll(normalize, root, 1)
  {
    hide Walk, WalkAll, Size;
    parts := [];
    var stack := PushReversed(normalize, root, 1, []);
    while stack != []
      invariant parts + Pending(normalize, stack) == WalkAll(normalize, root, 1)
      decreases StackSize(stack)
    {
      TopIsDone(normalize, parts, stack);
      parts, stack := ReadTop(normalize, stack[|stack| - 1], stack[..|stack| - 1], parts);
    }
  }

  // ---- What is read, said without a walk ----

  /** A text of the page and the elements it lies in, outermost first. */
  datatype Place = Place(text: string, ancestors: seq<string>)

  /** Every text of the page in document order, wherever it lies. */
  function Places(node: Node, ancestors: seq<string>): seq<Place>
    decreases node, 1
  {
    match node
    case Text(text) => [Place(text, ancestors)]
    case Other => []
    case Element(name, children) => PlacesAll(children, ancestors + [name])
  }

  function PlacesAll(nodes: seq<Node>, ancestors: seq<string>): seq<Place>
    decreases nodes, 0
  {
    if nodes == [] then [] else Places(nodes[0], ancestors) + PlacesAll(nodes[1..], ancestors)
  }

  /** Readable: inside no skipped element, and fewer than 256 elements deep. */
  predicate Readable(ancestors: seq<string>) {
    |ancestors| < MAX_DEPTH && forall a :: a in ancestors ==> a !in SKIPPED
  }

  function Read(normalize: Normalizer, places: seq<Place>): seq<string> {
    if places == [] then []
    else
      var text := normalize(places[0].text);
      (if Readable(places[0].ancestors) && text != "" then [text] else []) + Read(normalize, places[1..])
  }

  lemma {:induction false} ReadJoins(normalize: Normalizer, xs: seq<Place>, ys: seq<Place>)
    ensures Read(normalize, xs + ys) == Read(normalize, xs) + Read(normalize, ys)
  {
    if xs == [] {
      assert xs + ys == ys;
    } else {
      assert (xs + ys)[0] == xs[0] && (xs + ys)[1..] == xs[1..] + ys;
      ReadJoins(normalize, xs[1..], ys);
    }
  }

  lemma ReadableGrows(ancestors: seq<string>, name: string)
    ensures Readable(ancestors + [name]) <==> Readable(ancestors) && |ancestors| + 1 < MAX_DEPTH && name !in SKIPPED
  {
    assert name in ancestors + [name];
    if Readable(ancestors + [name]) {
      forall a | a in ancestors ensures a !in SKIPPED { assert a in ancestors + [name]; }
    }
  }

  lemma {:induction false} WalkReads(normalize: Normalizer, node: Node, ancestors: seq<string>)
    ensures Read(normalize, Places(node, ancestors)) ==
      if Readable(ancestors) then Walk(normalize, node, |ancestors| + 1) else []
    decreases node, 1
  {
    match node
    case Text(text) => assert [Place(text, ancestors)][1..] == [];
    case Other =>
    case Element(name, children) =>
      ReadableGrows(ancestors, name);
      WalkAllReads(normalize, children, ancestors + [name]);
  }

  /** The walk emits the readable texts of the page, in document order, and nothing else. */
  lemma {:induction false} WalkAllReads(normalize: Normalizer, nodes: seq<Node>, ancestors: seq<string>)
    ensures Read(normalize, PlacesAll(nodes, ancestors)) ==
      if Readable(ancestors) then WalkAll(normalize, nodes, |ancestors| + 1) else []
    decreases nodes, 0
  {
    if nodes != [] {
      WalkReads(normalize, nodes[0], ancestors);
      WalkAllReads(normalize, nodes[1..], ancestors);
      ReadJoins(normalize, Places(nodes[0], ancestors), PlacesAll(nodes[1..], ancestors));
    }
  }
}
