// The Open Graph scan of daemon/protocol/linkpreview.go over a finished HTML tree. The
// library functions it relies on (strings.ToLower, strings.TrimSpace, reference resolution
// against the page URL, strings.EqualFold) are parameters: every result holds for all of them.
module LinkPreviews {
  import opened Sequences

  datatype Attr = Attr(key: string, val: string)

  datatype Node = Node(isElement: bool, data: string, attrs: seq<Attr>, children: seq<Node>)

  datatype Library = Library(
    toLower: string -> string,
    trimSpace: string -> string,
    equalFold: (string, string) -> bool,
    resolve: string -> string)

  datatype Preview = Preview(title: string, description: string, imageUrl: string)

  // What the walk has captured so far.
  datatype Found = Found(title: string, description: string, imageUrl: string, titleFallback: string)

  const NOTHING := Found("", "", "", "")

  function AttrValue(lib: Library, attrs: seq<Attr>, name: string): string {
    if attrs == [] then ""
    else if lib.equalFold(attrs[0].key, name) then lib.trimSpace(attrs[0].val)
    else AttrValue(lib, attrs[1..], name)
  }

  function Property(lib: Library, node: Node): string {
    var property := AttrValue(lib, node.attrs, "property");
    if property == "" then AttrValue(lib, node.attrs, "name") else property
  }

  function ResolveRelativeURL(lib: Library, value: string): string {
    if value == "" then "" else lib.resolve(value)
  }

  // ---- Specification: candidates in document order ----

  function Preorder(node: Node): (r: seq<Node>)
    decreases node, 1
  {
    [node] + PreorderAll(node.children)
  }

  function PreorderAll(nodes: seq<Node>): seq<Node>
    decreases nodes, 0
  {
    if nodes == [] then [] else Preorder(nodes[0]) + PreorderAll(nodes[1..])
  }

  predicate IsMeta(lib: Library, node: Node, property: string) {
    node.isElement && node.data == "meta" && lib.toLower(Property(lib, node)) == property
  }

  function TitleOf(lib: Library, node: Node): string {
    if IsMeta(lib, node, "og:title") then AttrValue(lib, node.attrs, "content") else ""
  }

  function DescriptionOf(lib: Library, node: Node): string {
    if IsMeta(lib, node, "og:description") then AttrValue(lib, node.attrs, "content") else ""
  }

  function ImageOf(lib: Library, node: Node): string {
    if IsMeta(lib, node, "og:image") then ResolveRelativeURL(lib, AttrValue(lib, node.attrs, "content")) else ""
  }

  function FallbackOf(lib: Library, node: Node): string {
    if node.isElement && node.data == "title" && node.children != [] then lib.trimSpace(node.children[0].data) else ""
  }

  // ---- What the candidates are ----

  // The trimmed value of the first attribute with that name, or "".
  ghost predicate IsAttr(lib: Library, attrs: seq<Attr>, name: string, v: string) {
    || (v == "" && forall i :: 0 <= i < |attrs| ==> !lib.equalFold(attrs[i].key, name))
    || (exists i :: 0 <= i < |attrs| && lib.equalFold(attrs[i].key, name) && v == lib.trimSpace(attrs[i].val)
          && forall j :: 0 <= j < i ==> !lib.equalFold(attrs[j].key, name))
  }

  lemma {:induction false} AttrValueIsFirst(lib: Library, attrs: seq<Attr>, name: string, v: string)
    ensures IsAttr(lib, attrs, name, v) <==> v == AttrValue(lib, attrs, name)
  {
    if attrs != [] && !lib.equalFold(attrs[0].key, name) {
      var rest := attrs[1..];
      AttrValueIsFirst(lib, rest, name, v);
      assert forall i :: 0 <= i < |rest| ==> rest[i] == attrs[i + 1];
      if i :| 0 <= i < |rest| && lib.equalFold(rest[i].key, name) && v == lib.trimSpace(rest[i].val)
              && forall j :: 0 <= j < i ==> !lib.equalFold(rest[j].key, name) {
        assert lib.equalFold(attrs[i + 1].key, name);
        assert forall j :: 0 <= j < i + 1 ==> j == 0 || attrs[j] == rest[j - 1];
      }
      if i :| 0 <= i < |attrs| && lib.equalFold(attrs[i].key, name) && v == lib.trimSpace(attrs[i].val)
              && forall j :: 0 <= j < i ==> !lib.equalFold(attrs[j].key, name) {
        assert rest[i - 1] == attrs[i];
      }
    }
  }

  // A meta element counts for what its property names, or its name when it has none; a title
  // element counts for its first child. All four candidates, from the attributes p, n and c.
  lemma CandidatesInLiterals(lib: Library, node: Node, p: string, n: string, c: string)
    requires IsAttr(lib, node.attrs, "property", p) && IsAttr(lib, node.attrs, "name", n)
    requires IsAttr(lib, node.attrs, "content", c)
    ensures var key := if node.isElement && node.data == "meta" then lib.toLower(if p != "" then p else n) else "";
      && TitleOf(lib, node) == (if key == "og:title" then c else "")
      && DescriptionOf(lib, node) == (if key == "og:description" then c else "")
      && ImageOf(lib, node) == (if key == "og:image" && c != "" then lib.resolve(c) else "")
    ensures FallbackOf(lib, node) ==
      (if node.isElement && node.data == "title" && |node.children| > 0
       then lib.trimSpace(node.children[0].data) else "")
  {
    AttrValueIsFirst(lib, node.attrs, "property", p);
    AttrValueIsFirst(lib, node.attrs, "name", n);
    AttrValueIsFirst(lib, node.attrs, "content", c);
  }

  // ---- Document order ----

  type Path = seq<nat>

  function NodeAt(node: Node, path: Path): Option<Node>
    decreases |path|
  {
    if path == [] then Some(node)
    else if path[0] < |node.children| then NodeAt(node.children[path[0]], path[1..])
    else None
  }

  // An ancestor comes before what it holds, and an earlier child before a later one.
  predicate Before(p: Path, q: Path) {
    q != [] && (p == [] || p[0] < q[0] || (p[0] == q[0] && Before(p[1..], q[1..])))
  }

  ghost predicate Ordered(paths: seq<Path>) {
    forall i, j :: 0 <= i < j < |paths| ==> Before(paths[i], paths[j])
  }

  ghost predicate Leads(node: Node, path: Path, n: Node) {
    NodeAt(node, path) == Some(n)
  }

  ghost predicate LeadsInto(nodes: seq<Node>, k: nat, path: Path, n: Node) {
    path != [] && k <= path[0] < k + |nodes| && Leads(nodes[path[0] - k], path[1..], n)
  }

  function Under(k: nat, paths: seq<Path>): (r: seq<Path>)
    ensures |r| == |paths| && forall i :: 0 <= i < |r| ==> r[i] == [k] + paths[i]
  {
    if paths == [] then [] else [[k] + paths[0]] + Under(k, paths[1..])
  }

  // The scan lists every node of the document once, in document order.
  lemma {:induction false} PreorderIsDocumentOrder(node: Node) returns (paths: seq<Path>)
    ensures |paths| == |Preorder(node)| && Ordered(paths)
    ensures forall i :: 0 <= i < |paths| ==> Leads(node, paths[i], Preorder(node)[i])
    ensures forall path, n :: Leads(node, path, n) ==> path in paths
    decreases node, 1
  {
    var below := ChildrenInOrder(node.children, 0);
    paths := [[]] + below;
    forall path, n | Leads(node, path, n) ensures path in paths {
      if path == [] {
        assert paths[0] == [];
      } else {
        assert LeadsInto(node.children, 0, path, n);
        assert path in below;
      }
    }
    forall i | 0 <= i < |paths| ensures Leads(node, paths[i], Preorder(node)[i]) {
      if i > 0 {
        assert LeadsInto(node.children, 0, below[i - 1], PreorderAll(node.children)[i - 1]);
      }
    }
  }

  lemma {:induction false} ChildrenInOrder(nodes: seq<Node>, k: nat) returns (paths: seq<Path>)
    ensures |paths| == |PreorderAll(nodes)| && Ordered(paths)
    ensures forall i :: 0 <= i < |paths| ==> LeadsInto(nodes, k, paths[i], PreorderAll(nodes)[i])
    ensures forall path, n :: LeadsInto(nodes, k, path, n) ==> path in paths
    decreases nodes, 0
  {
    if nodes == [] {
      paths := [];
    } else {
      var first := PreorderIsDocumentOrder(nodes[0]);
      var rest := ChildrenInOrder(nodes[1..], k + 1);
      var front := Under(k, first);
      paths := front + rest;
      forall path, n | LeadsInto(nodes, k, path, n) ensures path in paths {
        IntoFirstOrRest(nodes, k, path, n);
        if path[0] == k {
          assert path == [k] + path[1..];
        }
      }
      forall i | 0 <= i < |paths| ensures LeadsInto(nodes, k, paths[i], PreorderAll(nodes)[i]) {
        if i < |front| {
          IntoFirst(nodes, k, first[i], Preorder(nodes[0])[i]);
        } else {
          IntoRest(nodes, k, rest[i - |front|], PreorderAll(nodes[1..])[i - |front|]);
        }
      }
    }
  }

  lemma IntoFirst(nodes: seq<Node>, k: nat, path: Path, n: Node)
    requires nodes != [] && Leads(nodes[0], path, n)
    ensures LeadsInto(nodes, k, [k] + path, n)
  {
    assert ([k] + path)[1..] == path;
  }

  lemma IntoRest(nodes: seq<Node>, k: nat, path: Path, n: Node)
    requires nodes != [] && LeadsInto(nodes[1..], k + 1, path, n)
    ensures LeadsInto(nodes, k, path, n)
  {
  }

  lemma IntoFirstOrRest(nodes: seq<Node>, k: nat, path: Path, n: Node)
    requires nodes != [] && LeadsInto(nodes, k, path, n)
    ensures if path[0] == k then Leads(nodes[0], path[1..], n) else LeadsInto(nodes[1..], k + 1, path, n)
  {
  }

  // Node i has the candidate v and no earlier node has any.
  ghost predicate FirstAt(candidate: Node -> string, nodes: seq<Node>, v: string, i: nat) {
    i < |nodes| && candidate(nodes[i]) == v && forall j :: 0 <= j < i ==> candidate(nodes[j]) == ""
  }

  // The first non-empty candidate, or "".
  ghost predicate IsFirst(candidate: Node -> string, nodes: seq<Node>, v: string) {
    if v == "" then forall i :: 0 <= i < |nodes| ==> candidate(nodes[i]) == ""
    else exists i: nat :: FirstAt(candidate, nodes, v, i)
  }

  lemma FirstIsUnique(candidate: Node -> string, nodes: seq<Node>, v: string, w: string)
    requires IsFirst(candidate, nodes, v) && IsFirst(candidate, nodes, w)
    ensures v == w
  {
  }

  function First(candidate: Node -> string, nodes: seq<Node>): (v: string)
    ensures IsFirst(candidate, nodes, v)
  {
    if nodes == [] then ""
    else if candidate(nodes[0]) != "" then
      assert FirstAt(candidate, nodes, candidate(nodes[0]), 0);
      candidate(nodes[0])
    else
      var v := First(candidate, nodes[1..]);
      FirstShifts(candidate, nodes, v);
      v
  }

  lemma FirstShifts(candidate: Node -> string, nodes: seq<Node>, v: string)
    requires nodes != [] && candidate(nodes[0]) == "" && IsFirst(candidate, nodes[1..], v)
    ensures IsFirst(candidate, nodes, v)
  {
    assert forall i :: 1 <= i < |nodes| ==> nodes[i] == nodes[1..][i - 1];
    if v != "" {
      var i: nat :| FirstAt(candidate, nodes[1..], v, i);
      assert FirstAt(candidate, nodes, v, i + 1);
    }
  }

  lemma {:induction false} FirstOfConcat(candidate: Node -> string, a: seq<Node>, b: seq<Node>)
    ensures First(candidate, a + b) == OrElse(First(candidate, a), First(candidate, b))
  {
    if a == [] {
      assert a + b == b;
    } else {
      FirstOfConcat(candidate, a[1..], b);
      assert (a + b)[1..] == a[1..] + b;
    }
  }

  function Titles(lib: Library): Node -> string { (n: Node) => TitleOf(lib, n) }

  function Descriptions(lib: Library): Node -> string { (n: Node) => DescriptionOf(lib, n) }

  function Images(lib: Library): Node -> string { (n: Node) => ImageOf(lib, n) }

  function Fallbacks(lib: Library): Node -> string { (n: Node) => FallbackOf(lib, n) }

  // A full scan of `nodes`, starting from what was found before them.
  function Scan(lib: Library, have: Found, nodes: seq<Node>): Found {
    Found(
      OrElse(have.title, First(Titles(lib), nodes)),
      OrElse(have.description, First(Descriptions(lib), nodes)),
      OrElse(have.imageUrl, First(Images(lib), nodes)),
      OrElse(have.titleFallback, First(Fallbacks(lib), nodes)))
  }

  predicate Complete(f: Found) {
    f.title != "" && f.description != "" && f.imageUrl != "" && f.titleFallback != ""
  }

  lemma ScanOfConcat(lib: Library, have: Found, a: seq<Node>, b: seq<Node>)
    ensures Scan(lib, have, a + b) == Scan(lib, Scan(lib, have, a), b)
  {
    FirstOfConcat(Titles(lib), a, b);
    FirstOfConcat(Descriptions(lib), a, b);
    FirstOfConcat(Images(lib), a, b);
    FirstOfConcat(Fallbacks(lib), a, b);
  }

  lemma PreorderAllSplits(nodes: seq<Node>, i: nat)
    requires i < |nodes|
    ensures PreorderAll(nodes[..i + 1]) == PreorderAll(nodes[..i]) + Preorder(nodes[i])
  {
    if i == 0 {
      assert nodes[..1] == [nodes[0]];
      assert PreorderAll([nodes[0]]) == Preorder(nodes[0]) + PreorderAll([nodes[0]][1..]);
    } else {
      PreorderAllSplits(nodes[1..], i - 1);
      assert nodes[..i + 1][1..] == nodes[1..][..i] && nodes[..i][1..] == nodes[1..][..i - 1];
    }
  }

  // ---- The walk ----

  class Walker {
    const lib: Library
    var preview: Preview
    var titleFallback: string

    constructor (lib: Library)
      ensures this.lib == lib && Captured() == NOTHING
    {
      this.lib := lib;
      preview := Preview("", "", "");
      titleFallback := "";
    }

    function Captured(): Found
      reads this
    {
      Found(preview.title, preview.description, preview.imageUrl, titleFallback)
    }

    method Visit(node: Node)
      modifies this
      ensures Captured() == Scan(lib, old(Captured()), [node])
    {
      assert First(Titles(lib), [node]) == TitleOf(lib, node);
      assert First(Descriptions(lib), [node]) == DescriptionOf(lib, node);
      assert First(Images(lib), [node]) == ImageOf(lib, node);
      assert First(Fallbacks(lib), [node]) == FallbackOf(lib, node);
      if node.isElement {
        if node.data == "meta" {
          var property := AttrValue(lib, node.attrs, "property");
          if property == "" {
            property := AttrValue(lib, node.attrs, "name");
          }
          var content := AttrValue(lib, node.attrs, "content");
          var which := lib.toLower(property);
          if which == "og:title" {
            if preview.title == "" {
              preview := preview.(title := content);
            }
          } else if which == "og:description" {
            if preview.description == "" {
              preview := preview.(description := content);
            }
          } else if which == "og:image" {
            if preview.imageUrl == "" {
              preview := preview.(imageUrl := ResolveRelativeURL(lib, content));
            }
          }
        } else if node.data == "title" {
          if titleFallback == "" && node.children != [] {
            titleFallback := lib.trimSpace(node.children[0].data);
          }
        }
      }
    }

    // Stops early, at any depth, yet captures what a full preorder scan would.
    method Walk(node: Node)
      modifies this
      ensures Captured() == Scan(lib, old(Captured()), Preorder(node))
      decreases node
    {
      if preview.title != "" && preview.description != "" && preview.imageUrl != "" && titleFallback != "" {
        return;
      }
      Visit(node);
      ghost var here := Captured();
      for i := 0 to |node.children|
        invariant Captured() == Scan(lib, here, PreorderAll(node.children[..i]))
      {
        Walk(node.children[i]);
        PreorderAllSplits(node.children, i);
        ScanOfConcat(lib, here, PreorderAll(node.children[..i]), Preorder(node.children[i]));
      }
      assert node.children[..|node.children|] == node.children;
      ScanOfConcat(lib, old(Captured()), [node], PreorderAll(node.children));
    }
  }

  method FetchLinkPreview(lib: Library, document: Node) returns (preview: Preview)
    ensures IsFirst(Descriptions(lib), Preorder(document), preview.description)
    ensures IsFirst(Images(lib), Preorder(document), preview.imageUrl)
    ensures exists ogTitle, fallback ::
      IsFirst(Titles(lib), Preorder(document), ogTitle) && IsFirst(Fallbacks(lib), Preorder(document), fallback)
      && preview.title == if ogTitle != "" then ogTitle else fallback
  {
    var walker := new Walker(lib);
    walker.Walk(document);
    preview := walker.preview;
    if preview.title == "" {
      preview := preview.(title := walker.titleFallback);
    }
    assert IsFirst(Titles(lib), Preorder(document), First(Titles(lib), Preorder(document)));
    assert IsFirst(Fallbacks(lib), Preorder(document), First(Fallbacks(lib), Preorder(document)));
  }
}
