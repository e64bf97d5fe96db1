/** Value lookup in an XML document by a '/'-separated path of element names:
    the path is cut into a queue of segments, then a cursor walks the element
    tree, moving along siblings and down into children. */
module XmlPath {

  /** An element of the parsed document: its name, the text of its content,
      and its child nodes in document order. */
  datatype Node = Node(name: string, text: string, children: seq<Node>)

  /** A parsed document, with or without a root element. */
  datatype Document = NoRoot | Rooted(root: Node)

  /** How a lookup ends: the element found, nothing found (the empty string),
      or a dereference of the null child pointer of a childless element. */
  datatype Outcome = Found(node: Node) | NotFound | NullDeref

  /** The path cut at every '/': one more part than there are slashes. */
  function Parts(path: string): (p: seq<string>)
    ensures |p| >= 1
    decreases |path|
  {
    if path == [] then [""]
    else
      var pre := Parts(path[..|path| - 1]);
      var c := path[|path| - 1];
      if c == '/' then pre + [""] else pre[..|pre| - 1] + [pre[|pre| - 1] + [c]]
  }

  /** The segments the lookup queues: every part closed by a '/', even an
      empty one, and the final part only if it is not empty. */
  function Segments(path: string): seq<string>
  {
    var p := Parts(path);
    if p[|p| - 1] == "" then p[..|p| - 1] else p
  }

  /** The segments put back together with '/' between them. */
  function Join(segs: seq<string>): string
  {
    if segs == [] then ""
    else if |segs| == 1 then segs[0]
    else Join(segs[..|segs| - 1]) + "/" + segs[|segs| - 1]
  }

  /** Joining the parts with '/' gives the path back. */
  lemma {:induction false} PartsJoin(path: string)
    ensures Join(Parts(path)) == path
    decreases |path|
  {
    if path != [] {
      var front := path[..|path| - 1];
      var c := path[|path| - 1];
      assert path == front + [c];
      PartsJoin(front);
      var pre := Parts(front);
      var p := Parts(path);
      if c == '/' {
        assert p[..|p| - 1] == pre;
      } else {
        assert p[..|p| - 1] == pre[..|pre| - 1];
        if |pre| >= 2 {
          assert pre[..|pre| - 1][..|pre| - 2] == pre[..|pre| - 2];
        }
      }
    }
  }

  /** No part holds a '/'. */
  lemma {:induction false} PartsNoSlash(path: string)
    ensures forall k :: 0 <= k < |Parts(path)| ==> '/' !in Parts(path)[k]
    decreases |path|
  {
    if path != [] {
      var front := path[..|path| - 1];
      PartsNoSlash(front);
      var pre := Parts(front);
      var p := Parts(path);
      forall k | 0 <= k < |p|
        ensures '/' !in p[k]
      {
        if k < |pre| - 1 {
          assert p[k] == pre[k];
        }
      }
    }
  }

  /** Parts come from splitting, so joining them gives the path back and no
      part holds a '/'; the last part is empty exactly when the path is empty
      or ends in '/'. */
  lemma PartsSpec(path: string)
    ensures Join(Parts(path)) == path
    ensures forall k :: 0 <= k < |Parts(path)| ==> '/' !in Parts(path)[k]
    ensures Parts(path)[|Parts(path)| - 1] == "" <==> path == [] || path[|path| - 1] == '/'
  {
    PartsJoin(path);
    PartsNoSlash(path);
  }

  /** No segment contains '/', and joining the segments gives the path with
      at most one trailing '/' removed. */
  lemma SegmentsSpec(path: string)
    ensures forall k :: 0 <= k < |Segments(path)| ==> '/' !in Segments(path)[k]
    ensures Join(Segments(path)) == if path != [] && path[|path| - 1] == '/' then path[..|path| - 1] else path
    ensures Segments(path) == [] <==> path == []
  {
    PartsSpec(path);
    var p := Parts(path);
    if p[|p| - 1] == "" && |p| >= 2 {
      assert Join(p) == Join(p[..|p| - 1]) + "/";
      assert path == Join(p[..|p| - 1]) + "/";
      assert path[..|path| - 1] == Join(p[..|p| - 1]);
    }
  }

  /** Parts of a path one character longer. */
  lemma PartsSnoc(path: string, c: char)
    ensures Parts(path + [c]) ==
      if c == '/' then Parts(path) + [""]
      else Parts(path)[..|Parts(path)| - 1] + [Parts(path)[|Parts(path)| - 1] + [c]]
  {
    assert (path + [c])[..|path|] == path;
  }

  lemma PartsA()
    ensures Parts("a") == ["a"]
  {
    assert "a" == [] + ['a'];
    PartsSnoc([], 'a');
  }

  lemma PartsASlash()
    ensures Parts("a/") == ["a", ""]
  {
    assert "a/" == "a" + ['/'];
    PartsA();
    PartsSnoc("a", '/');
  }

  lemma PartsAB()
    ensures Parts("a/b") == ["a", "b"]
  {
    assert "a/b" == "a/" + ['b'];
    PartsASlash();
    PartsSnoc("a/", 'b');
    assert "" + ['b'] == "b";
  }

  lemma PartsDoubleSlash()
    ensures Parts("a//b") == ["a", "", "b"]
  {
    PartsASlash();
    assert "a//" == "a/" + ['/'];
    PartsSnoc("a/", '/');
    assert "a//b" == "a//" + ['b'];
    PartsSnoc("a//", 'b');
    assert "" + ['b'] == "b";
  }

  lemma PartsTrailingSlash()
    ensures Parts("a/b/") == ["a", "b", ""]
  {
    PartsAB();
    assert "a/b/" == "a/b" + ['/'];
    PartsSnoc("a/b", '/');
  }

  /** Empty segments are kept, a trailing '/' adds none. */
  lemma SegmentsExamples()
    ensures Segments("a//b") == ["a", "", "b"]
    ensures Segments("a/b/") == ["a", "b"]
  {
    PartsDoubleSlash();
    PartsTrailingSlash();
    assert ["a", "b", ""][..2] == ["a", "b"];
  }

  /** The cursor walk. The cursor is siblings[idx] (null when idx is past the
      end); queue[0] is the name being looked for. A match whose name equals
      the queue's last segment is the answer; any other match descends into
      its children, and the step to the next sibling that always follows
      skips the first child. */
  function Walk(siblings: seq<Node>, idx: nat, queue: seq<string>): Outcome
    requires |queue| >= 1 && idx <= |siblings|
    decreases |queue|, |siblings| - idx
  {
    if idx == |siblings| then NotFound
    else
      var cur := siblings[idx];
      if cur.name == queue[0] then
        if queue[0] == queue[|queue| - 1] then Found(cur)
        else if cur.children == [] then NullDeref
        else Walk(cur.children, 1, queue[1..])
      else Walk(siblings, idx + 1, queue)
  }

  /** The lookup as a whole: a document without a root gives the empty
      string before the queue is read; otherwise the queue must not be empty. */
  function Lookup(doc: Document, path: string): Outcome
    requires doc.Rooted? ==> path != []
  {
    if doc.NoRoot? then NotFound
    else
      SegmentsSpec(path);
      Walk([doc.root], 0, Segments(path))
  }

  /** Whatever the walk finds is named like the last segment of the path. */
  lemma {:induction false} FoundNamedLast(siblings: seq<Node>, idx: nat, queue: seq<string>)
    requires |queue| >= 1 && idx <= |siblings|
    ensures Walk(siblings, idx, queue).Found? ==> Walk(siblings, idx, queue).node.name == queue[|queue| - 1]
    decreases |queue|, |siblings| - idx
  {
    if idx < |siblings| {
      var cur := siblings[idx];
      if cur.name == queue[0] {
        if queue[0] != queue[|queue| - 1] && cur.children != [] {
          FoundNamedLast(cur.children, 1, queue[1..]);
        }
      } else {
        FoundNamedLast(siblings, idx + 1, queue);
      }
    }
  }

  /** A node whose name differs from the segment sought passes the cursor on
      to its next sibling. */
  lemma NonMatchAdvances(siblings: seq<Node>, idx: nat, queue: seq<string>)
    requires |queue| >= 1 && idx < |siblings| && siblings[idx].name != queue[0]
    ensures Walk(siblings, idx, queue) == Walk(siblings, idx + 1, queue)
  {
  }

  /** The last-segment test compares names, not positions: in "a/b/a" the root
      element "a" is already the answer. */
  lemma LastSegmentByValue(text: string, kids: seq<Node>)
    ensures Lookup(Rooted(Node("a", text, kids)), "a/b/a") == Found(Node("a", text, kids))
  {
    assert "a/b/a"[..4] == "a/b/" && "a/b/"[..3] == "a/b" && "a/b"[..2] == "a/" && "a/"[..1] == "a" && "a"[..0] == "";
  }

  /** Descending skips the first child: "a/b" is not found when "b" is the
      first child of "a", and is found when it comes second. */
  lemma FirstChildSkipped(v: string, w: string)
    ensures Lookup(Rooted(Node("a", "", [Node("b", v, [])])), "a/b") == NotFound
    ensures Lookup(Rooted(Node("a", "", [Node("c", w, []), Node("b", v, [])])), "a/b") == Found(Node("b", v, []))
  {
    PartsAB();
    var q := Segments("a/b");
    assert q == ["a", "b"] && q[1..] == ["b"];
    var b := Node("b", v, []);
    assert Walk([Node("a", "", [b])], 0, q) == Walk([b], 1, ["b"]) == NotFound;
    var kids := [Node("c", w, []), b];
    assert Walk([Node("a", "", kids)], 0, q) == Walk(kids, 1, ["b"]) == Found(b);
  }

  /** Descending into an element without children follows a null pointer. */
  lemma ChildlessDescentDereferencesNull(v: string)
    ensures Lookup(Rooted(Node("a", v, [])), "a/b") == NullDeref
  {
    assert "a/b"[..2] == "a/" && "a/"[..1] == "a" && "a"[..0] == "";
  }

  /** The walk from a cursor depends only on the cursor and its following
      siblings, never on the siblings before it. */
  lemma {:induction false} WalkSuffix(s: seq<Node>, i: nat, t: seq<Node>, j: nat, queue: seq<string>)
    requires |queue| >= 1 && i <= |s| && j <= |t| && s[i..] == t[j..]
    ensures Walk(s, i, queue) == Walk(t, j, queue)
    decreases |s| - i
  {
    if i < |s| {
      assert s[i] == s[i..][0] == t[j..][0] == t[j];
      assert s[i + 1..] == s[i..][1..] == t[j..][1..] == t[j + 1..];
      WalkSuffix(s, i + 1, t, j + 1, queue);
    }
  }

  /** After any descent the first child is never examined: replacing it by an
      arbitrary node leaves the outcome unchanged. */
  lemma DescentSkipsFirstChild(siblings: seq<Node>, idx: nat, queue: seq<string>, other: Node)
    requires |queue| >= 1 && idx < |siblings|
    requires siblings[idx].name == queue[0] && queue[0] != queue[|queue| - 1]
    requires siblings[idx].children != []
    ensures Walk(siblings, idx, queue) ==
      Walk(siblings[idx := siblings[idx].(children := [other] + siblings[idx].children[1..])], idx, queue)
  {
    var kids := siblings[idx].children;
    var swapped := [other] + kids[1..];
    assert swapped[1..] == kids[1..];
    WalkSuffix(kids, 1, swapped, 1, queue[1..]);
  }

  /** Any descent into an element without children follows a null pointer. */
  lemma ChildlessDescentFails(siblings: seq<Node>, idx: nat, queue: seq<string>)
    requires |queue| >= 1 && idx < |siblings|
    requires siblings[idx].name == queue[0] && queue[0] != queue[|queue| - 1]
    requires siblings[idx].children == []
    ensures Walk(siblings, idx, queue) == NullDeref
  {
  }

  /** An XML file as far as value lookup is concerned. */
  class XmlFile {
    var doc: Document

    constructor (doc: Document)
      ensures this.doc == doc
    {
      this.doc := doc;
    }

    /** Cuts the path into its queue of segments, one character at a time. */
    static method Tokenize(path: string) returns (pathTree: seq<string>)
      ensures pathTree == Segments(path)
    {
      pathTree := [];
      var nodeBuffer := "";
      for i := 0 to |path|
        invariant pathTree + [nodeBuffer] == Parts(path[..i])
      {
        assert path[..i + 1][..i] == path[..i];
        if path[i] != '/' {
          nodeBuffer := nodeBuffer + [path[i]];
        } else {
          pathTree := pathTree + [nodeBuffer];
          nodeBuffer := "";
        }
      }
      assert path[..|path|] == path;
      if |nodeBuffer| > 0 {
        pathTree := pathTree + [nodeBuffer];
      }
    }

    /** Looks up the value at `path` by walking the cursor through the tree. */
    method Get(path: string) returns (r: Outcome)
      requires doc.Rooted? ==> path != []
      ensures r == Lookup(doc, path)
    {
      var pathTree := Tokenize(path);
      if doc.NoRoot? {
        return NotFound;
      }
      SegmentsSpec(path);
      var siblings := [doc.root];
      var idx := 0;
      var nodeToLocate := pathTree[0];
      while |pathTree| > 0
        invariant |pathTree| >= 1 && nodeToLocate == pathTree[0] && idx <= |siblings|
        invariant Walk(siblings, idx, pathTree) == Lookup(doc, path)
        decreases |pathTree|, |siblings| - idx
      {
        if idx == |siblings| {
          break;
        }
        var cur := siblings[idx];
        if cur.name == nodeToLocate {
          if nodeToLocate == pathTree[|pathTree| - 1] {
            return Found(cur);
          }
          if cur.children == [] {
            return NullDeref;
          }
          siblings := cur.children;
          idx := 0;
          pathTree := pathTree[1..];
          nodeToLocate := pathTree[0];
        }
        idx := idx + 1;
      }
      return NotFound;
    }
  }
}
