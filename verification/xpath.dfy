/**
 * The page script `getElementXPath`, run in the browser to build the structural-path locator,
 * over an abstract DOM: each node knows its kind, name, id, preceding siblings and parent.
 */
module XPathRule {
  import opened Wrappers
  import opened Strings
  import opened Json

  datatype NodeKind = ElementNode | TextNode | CommentNode | DocumentNode | DocumentTypeNode | OtherNode

  /** A preceding sibling, as far as the script looks at it. */
  datatype Sibling = Sibling(kind: NodeKind, nodeName: string)

  /** A DOM node with the parts of its neighbourhood the script reads. */
  datatype DomNode = DomNode(
    kind: NodeKind,
    nodeName: string,
    id: string,
    preceding: seq<Sibling>,
    parent: Option<DomNode>)

  /** The number of siblings named like the node, skipping document-type nodes. */
  function CountSameName(siblings: seq<Sibling>, name: string): nat
    decreases |siblings|
  {
    if siblings == [] then 0
    else
      var here := if siblings[0].kind != DocumentTypeNode && siblings[0].nodeName == name then 1 else 0;
      here + CountSameName(siblings[1..], name)
  }

  function SameNameIndex(n: DomNode): nat {
    CountSameName(n.preceding, n.nodeName)
  }

  /** One path step: the lower-cased name, with `[k+1]` only when `k > 0` same-name siblings precede it. */
  function Segment(n: DomNode): string {
    var index := SameNameIndex(n);
    Lower(n.nodeName) + (if index > 0 then "[" + NatToString(index + 1) + "]" else "")
  }

  /** The path steps from the outermost element ancestor down to `n`, stopping at the first non-element. */
  function Steps(n: DomNode): seq<string>
    decreases n
  {
    if n.kind != ElementNode then []
    else
      match n.parent
      case None => [Segment(n)]
      case Some(p) => Steps(p) + [Segment(n)]
  }

  /** The number of consecutive element nodes on the way up from `n`. */
  function ElementDepth(n: DomNode): nat
    decreases n
  {
    if n.kind != ElementNode then 0
    else
      match n.parent
      case None => 1
      case Some(p) => ElementDepth(p) + 1
  }

  /**
   * `getElementXPath(element)`: the id path (a double slash, then `*[@id="…"]`) for an element with a
   * non-empty id, otherwise `/` followed by the steps joined with `/`, or null when there is no element.
   */
  function ElementXPath(arg: Option<DomNode>): Option<string> {
    match arg
    case None => None
    case Some(n) =>
      if n.kind == ElementNode && n.id != "" then Some("//*[@id=\"" + n.id + "\"]")
      else
        var steps := Steps(n);
        if steps == [] then None else Some("/" + Join("/", steps))
  }

  /** How the driver's answer to the script is read: a string is a path, anything else is none. */
  function ScriptXPath(v: Json): (r: Option<string>)
    ensures r.Some? <==> v.Str?
  {
    match v
    case Str(s) => Some(s)
    case _ => None
  }

  /** The script's return value as the driver hands it back; reading it recovers the script's answer. */
  function ToScriptValue(x: Option<string>): (v: Json)
    ensures ScriptXPath(v) == x
  {
    match x
    case Some(s) => Str(s)
    case None => Null
  }

  // ------------------------------------------------------------------ facts

  /** An element with an id is described by that id alone. */
  lemma XPathIdShortcut(n: DomNode)
    requires n.kind == ElementNode && n.id != ""
    ensures ElementXPath(Some(n)) == Some("//*[@id=\"" + n.id + "\"]")
  {
  }

  lemma {:induction false} StepsCount(n: DomNode)
    ensures |Steps(n)| == ElementDepth(n)
    ensures n.kind == ElementNode ==> |Steps(n)| >= 1 && Steps(n)[|Steps(n)| - 1] == Segment(n)
    decreases n
  {
    if n.kind == ElementNode && n.parent.Some? {
      StepsCount(n.parent.value);
    }
  }

  /** The script answers null exactly for a null argument or a node that is not an element. */
  lemma XPathNull(arg: Option<DomNode>)
    ensures ElementXPath(arg).None? <==> arg.None? || arg.value.kind != ElementNode
  {
    if arg.Some? {
      StepsCount(arg.value);
    }
  }

  /** Names without `/`, all the way up the element chain. */
  predicate SlashFreeChain(n: DomNode)
    decreases n
  {
    n.kind == ElementNode ==>
      && '/' !in n.nodeName
      && (n.parent.Some? ==> SlashFreeChain(n.parent.value))
  }

  lemma SegmentSlashFree(n: DomNode)
    requires '/' !in n.nodeName
    ensures '/' !in Segment(n)
  {
    var index := SameNameIndex(n);
    var low := Lower(n.nodeName);
    assert forall i :: 0 <= i < |low| ==> low[i] != '/';
    if index > 0 {
      var digits := NatToString(index + 1);
      assert forall i :: 0 <= i < |digits| ==> digits[i] != '/';
      assert Segment(n) == low + "[" + digits + "]";
    }
  }

  lemma {:induction false} StepsSlashFree(n: DomNode)
    requires SlashFreeChain(n)
    ensures forall k :: 0 <= k < |Steps(n)| ==> '/' !in Steps(n)[k]
    decreases n
  {
    if n.kind == ElementNode {
      SegmentSlashFree(n);
      if n.parent.Some? {
        StepsSlashFree(n.parent.value);
        var prefix := Steps(n.parent.value);
        assert Steps(n) == prefix + [Segment(n)];
        forall k | 0 <= k < |Steps(n)| ensures '/' !in Steps(n)[k] {
          if k < |prefix| {
            assert Steps(n)[k] == prefix[k];
          }
        }
      }
    }
  }

  /**
   * Without an id, the path has one `/`-separated step per element on the way up, outermost
   * first and ending with the element itself.
   */
  lemma XPathSteps(n: DomNode)
    requires n.kind == ElementNode && n.id == ""
    requires SlashFreeChain(n)
    ensures ElementXPath(Some(n)).Some?
    ensures var p := ElementXPath(Some(n)).value;
      && |p| >= 1 && p[0] == '/'
      && Split(p[1..], '/') == Steps(n)
      && |Split(p[1..], '/')| == ElementDepth(n)
      && Split(p[1..], '/')[ElementDepth(n) - 1] == Segment(n)
  {
    StepsCount(n);
    StepsSlashFree(n);
    var steps := Steps(n);
    var p := "/" + Join("/", steps);
    assert p[1..] == Join("/", steps);
    SplitJoin(steps, '/');
  }

  /** A step carries a sibling index exactly when a same-name sibling precedes the node. */
  lemma SegmentIndexed(n: DomNode)
    requires '[' !in n.nodeName
    ensures '[' in Segment(n) <==> SameNameIndex(n) > 0
    ensures StartsWith(Segment(n), Lower(n.nodeName))
  {
    var low := Lower(n.nodeName);
    assert Segment(n)[..|low|] == low;
    if SameNameIndex(n) == 0 {
      assert Segment(n) == low;
      assert forall i :: 0 <= i < |low| ==> low[i] != '[';
    } else {
      assert Segment(n)[|low|] == '[';
    }
  }
}
