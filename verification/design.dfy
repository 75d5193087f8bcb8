/** DaemonOperators.constructDesignFromPath: reading a design (a list of
    classes) off an ant path. */
module Design {
  import opened Graph

  /** A class of the design: the attribute and the method vertices it holds,
      each in path order. */
  datatype DesignClass = DesignClass(attributes: seq<Node>, methods: seq<Node>) {
    /** The number of elements of the class. */
    function Size(): nat { |attributes| + |methods| }
  }

  const EmptyClass := DesignClass([], [])

  /** The loop of constructDesignFromPath from `path` onwards, `open` being
      the class assembled since the last EndOfClass marker. */
  function Scan(path: seq<Node>, open: DesignClass): seq<DesignClass>
    decreases |path|
  {
    if |path| == 0 then []
    else
      var n := path[0];
      match n.kind
      case Nest => Scan(path[1..], open)
      case Attribute => Scan(path[1..], DesignClass(open.attributes + [n], open.methods))
      case Method => Scan(path[1..], DesignClass(open.attributes, open.methods + [n]))
      case EndOfClass => [open] + Scan(path[1..], EmptyClass)
  }

  /** constructDesignFromPath: the classes closed by the markers of the path. */
  function ConstructDesign(path: seq<Node>): seq<DesignClass>
  {
    Scan(path, EmptyClass)
  }

  /** The vertices of a given kind in a segment, in order. */
  function OfKind(seg: seq<Node>, k: Kind): (r: seq<Node>)
    ensures forall i :: 0 <= i < |r| ==> r[i].kind == k && r[i] in seg
  {
    if |seg| == 0 then []
    else (if seg[0].kind == k then [seg[0]] else []) + OfKind(seg[1..], k)
  }

  /** The class a marker-free segment describes. */
  function ClassOf(seg: seq<Node>): DesignClass
  {
    DesignClass(OfKind(seg, Attribute), OfKind(seg, Method))
  }

  predicate Unmarked(seg: seq<Node>)
  {
    forall i :: 0 <= i < |seg| ==> seg[i].kind != EndOfClass
  }

  /** The total number of elements of the classes of a design. */
  function TotalSize(design: seq<DesignClass>): nat
  {
    if |design| == 0 then 0 else design[0].Size() + TotalSize(design[1..])
  }

  /** Scanning a marker-free segment only grows the open class by the
      segment's attributes and methods; the Nest is ignored. */
  lemma {:induction false} ScanUnmarked(seg: seq<Node>, rest: seq<Node>, open: DesignClass)
    requires Unmarked(seg)
    ensures Scan(seg + rest, open)
         == Scan(rest, DesignClass(open.attributes + OfKind(seg, Attribute),
                                   open.methods + OfKind(seg, Method)))
  {
    if |seg| == 0 {
      assert seg + rest == rest;
      assert open.attributes + [] == open.attributes;
      assert open.methods + [] == open.methods;
    } else {
      var n := seg[0];
      assert n.kind != EndOfClass;
      assert (seg + rest)[1..] == seg[1..] + rest;
      assert Unmarked(seg[1..]) by {
        forall i | 0 <= i < |seg[1..]| ensures seg[1..][i].kind != EndOfClass {
          assert seg[1..][i] == seg[i + 1];
        }
      }
      match n.kind
      case Nest =>
        ScanUnmarked(seg[1..], rest, open);
        assert (seg + rest)[0] == n;
        assert Scan(seg + rest, open) == Scan(seg[1..] + rest, open);
        assert OfKind(seg, Attribute) == OfKind(seg[1..], Attribute);
        assert OfKind(seg, Method) == OfKind(seg[1..], Method);
      case Attribute =>
        var next := DesignClass(open.attributes + [n], open.methods);
        ScanUnmarked(seg[1..], rest, next);
        assert (seg + rest)[0] == n;
        assert Scan(seg + rest, open) == Scan(seg[1..] + rest, next);
        assert OfKind(seg, Attribute) == [n] + OfKind(seg[1..], Attribute);
        assert OfKind(seg, Method) == OfKind(seg[1..], Method);
        assert next.attributes + OfKind(seg[1..], Attribute)
            == open.attributes + OfKind(seg, Attribute);
      case Method =>
        var next := DesignClass(open.attributes, open.methods + [n]);
        ScanUnmarked(seg[1..], rest, next);
        assert (seg + rest)[0] == n;
        assert Scan(seg + rest, open) == Scan(seg[1..] + rest, next);
        assert OfKind(seg, Attribute) == OfKind(seg[1..], Attribute);
        assert OfKind(seg, Method) == [n] + OfKind(seg[1..], Method);
        assert next.methods + OfKind(seg[1..], Method)
            == open.methods + OfKind(seg, Method);
      case EndOfClass =>
        assert false;
    }
  }

  /** Each EndOfClass marker closes exactly one class, holding the attributes
      and methods seen since the previous marker. */
  lemma ConstructDesignClosesClass(seg: seq<Node>, marker: Node, rest: seq<Node>)
    requires Unmarked(seg) && marker.kind == EndOfClass
    ensures ConstructDesign(seg + [marker] + rest) == [ClassOf(seg)] + ConstructDesign(rest)
  {
    assert seg + [marker] + rest == seg + ([marker] + rest);
    ScanUnmarked(seg, [marker] + rest, EmptyClass);
    var open := DesignClass([] + OfKind(seg, Attribute), [] + OfKind(seg, Method));
    assert open == ClassOf(seg);
    assert ([marker] + rest)[0] == marker;
    assert ([marker] + rest)[1..] == rest;
    assert Scan([marker] + rest, open) == [open] + Scan(rest, EmptyClass);
  }

  /** Vertices after the last marker form no class: they are dropped. */
  lemma ConstructDesignDropsTrailing(seg: seq<Node>)
    requires Unmarked(seg)
    ensures ConstructDesign(seg) == []
  {
    assert seg + [] == seg;
    ScanUnmarked(seg, [], EmptyClass);
  }

  /** One class per marker, whatever class is still open. */
  lemma {:induction false} ScanCount(path: seq<Node>, open: DesignClass)
    ensures |Scan(path, open)| == MarkerCount(path)
  {
    if |path| > 0 {
      match path[0].kind
      case Nest => ScanCount(path[1..], open);
      case Attribute => ScanCount(path[1..], DesignClass(open.attributes + [path[0]], open.methods));
      case Method => ScanCount(path[1..], DesignClass(open.attributes, open.methods + [path[0]]));
      case EndOfClass => ScanCount(path[1..], EmptyClass);
    }
  }

  /** The design has as many classes as the path has EndOfClass markers. */
  lemma ConstructDesignCount(path: seq<Node>)
    ensures |ConstructDesign(path)| == MarkerCount(path)
  {
    ScanCount(path, EmptyClass);
  }

  lemma {:induction false} ScanTotal(path: seq<Node>, open: DesignClass)
    requires |path| > 0 && path[|path| - 1].kind == EndOfClass
    ensures TotalSize(Scan(path, open)) == open.Size() + ElementCount(path)
  {
    var n := path[0];
    if |path| == 1 {
      assert Scan(path, open) == [open] + Scan([], EmptyClass);
    } else {
      var tail := path[1..];
      assert tail[|tail| - 1] == path[|path| - 1];
      match n.kind
      case Nest => ScanTotal(tail, open);
      case Attribute => ScanTotal(tail, DesignClass(open.attributes + [n], open.methods));
      case Method => ScanTotal(tail, DesignClass(open.attributes, open.methods + [n]));
      case EndOfClass =>
        ScanTotal(tail, EmptyClass);
        assert ([open] + Scan(tail, EmptyClass))[1..] == Scan(tail, EmptyClass);
    }
  }

  /** On a path that ends with a marker, the class sizes add up to the number
      of attribute and method vertices: no element is lost or duplicated. */
  lemma ConstructDesignElements(path: seq<Node>)
    requires |path| > 0 && path[|path| - 1].kind == EndOfClass
    ensures TotalSize(ConstructDesign(path)) == ElementCount(path)
  {
    ScanTotal(path, EmptyClass);
  }

  /** Classes hold only vertices of the right kind, all taken from `whole`
      when the path and the open class are. */
  lemma {:induction false} ScanKinds(path: seq<Node>, open: DesignClass, whole: seq<Node>)
    requires forall x :: x in path ==> x in whole
    requires forall a :: a in open.attributes ==> a.kind == Attribute && a in whole
    requires forall m :: m in open.methods ==> m.kind == Method && m in whole
    ensures forall c :: c in Scan(path, open) ==>
              (forall a :: a in c.attributes ==> a.kind == Attribute && a in whole) &&
              (forall m :: m in c.methods ==> m.kind == Method && m in whole)
  {
    if |path| > 0 {
      var n := path[0];
      var tail := path[1..];
      var next := match n.kind
        case Attribute => DesignClass(open.attributes + [n], open.methods)
        case Method => DesignClass(open.attributes, open.methods + [n])
        case EndOfClass => EmptyClass
        case Nest => open;
      assert forall x :: x in tail ==> x in path;
      ScanKinds(tail, next, whole);
    }
  }

  /** Every class of the design holds attribute vertices of the path as its
      attributes and method vertices of the path as its methods. */
  lemma ConstructDesignKinds(path: seq<Node>)
    ensures forall c :: c in ConstructDesign(path) ==>
              (forall a :: a in c.attributes ==> a.kind == Attribute && a in path) &&
              (forall m :: m in c.methods ==> m.kind == Method && m in path)
  {
    ScanKinds(path, EmptyClass, path);
  }
}
