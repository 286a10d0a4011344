/** The debug console's tree of window kinds, windows and properties, packed into one number per node. */
module DebugIndex {
  import opened Sequences

  /** Kinds are numbered 1 to 4: X11, X11 unmanaged, Wayland and internal windows. */
  const KINDS := 4
  const ID_DISTANCE := 10000
  const TWO_16 := 0x1_0000
  const TWO_31 := 0x8000_0000
  const TWO_32 := 0x1_0000_0000
  const TWO_64 := 0x1_0000_0000_0000_0000

  /** The windows of each kind, each with the number of its properties; `topLevelRows` is 2 or 4. */
  datatype Model = Model(windows: seq<seq<nat>>, topLevelRows: nat) {
    predicate Valid() {
      |windows| == KINDS && topLevelRows <= KINDS
    }

    function OfKind(kind: nat): seq<nat>
      requires Valid() && 1 <= kind <= KINDS
    {
      windows[kind - 1]
    }
  }

  /** A model index; its id is an unsigned 64-bit number. */
  datatype Index = Invalid | Index(row: int, column: nat, id: nat)

  function ToInt32(x: int): int {
    var y := x % TWO_32;
    if y >= TWO_31 then y - TWO_32 else y
  }

  function PropertyBits(id: nat): nat {
    id / TWO_16 % TWO_16
  }

  function WindowBits(id: nat): nat {
    id % TWO_16
  }

  /** The row of a window, or of a property's window, in the list of a kind: unsigned arithmetic, then narrowed. */
  function RowInKind(id: nat, kind: nat): int {
    ToInt32((WindowBits(id) - ID_DISTANCE * kind) % TWO_64)
  }

  function WindowForIndex(m: Model, i: Index, kind: nat): Option<nat>
    requires m.Valid() && 1 <= kind <= KINDS && i.Index?
  {
    var row := RowInKind(i.id, kind);
    if row < 0 || row >= |m.OfKind(kind)| then None else Some(row)
  }

  function IndexForWindow(m: Model, row: nat, column: nat, kind: nat): Index
    requires m.Valid() && 1 <= kind <= KINDS
  {
    if column != 0 then Invalid
    else if row >= |m.OfKind(kind)| then Invalid
    else Index(row, column, (ID_DISTANCE * kind + row) % TWO_32)
  }

  function IndexForProperty(m: Model, row: nat, column: nat, parent: Index, kind: nat): Index
    requires m.Valid() && 1 <= kind <= KINDS && parent.Index? && parent.id < TWO_16
  {
    match WindowForIndex(m, parent, kind)
    case None => Invalid
    case Some(w) =>
      if row >= m.OfKind(kind)[w] then Invalid
      else Index(row, column, (row + 1) * TWO_16 % TWO_32 + parent.id)
  }

  /** The kind whose range of ids, up to the next kind's, an id falls into. */
  function KindOfId(id: nat): Option<nat> {
    if id < ID_DISTANCE * 2 then Some(1)
    else if id < ID_DISTANCE * 3 then Some(2)
    else if id < ID_DISTANCE * 4 then Some(3)
    else if id < ID_DISTANCE * 5 then Some(4)
    else None
  }

  function MakeIndex(m: Model, row: nat, column: nat, parent: Index): Index
    requires m.Valid()
  {
    if parent.Invalid? then
      if column != 0 || row >= m.topLevelRows then Invalid else Index(row, column, row + 1)
    else if column >= 2 then Invalid
    else if 1 <= parent.id <= KINDS then IndexForWindow(m, row, column, parent.id)
    else
      match KindOfId(parent.id)
      case None => Invalid
      case Some(kind) => IndexForProperty(m, row, column, parent, kind)
  }

  function ParentOf(child: Index): Index
    requires child.Index?
  {
    if child.id <= KINDS then Invalid
    else if PropertyBits(child.id) != 0 then
      var parentId := WindowBits(child.id);
      match KindOfId(parentId)
      case None => Invalid
      case Some(kind) => Index(ToInt32(parentId - ID_DISTANCE * kind), 0, parentId)
    else
      match KindOfId(child.id)
      case None => Invalid
      case Some(kind) => Index(kind - 1, 0, kind)
  }

  // ---------------------------------------------------------------------------
  // The tree behind the numbers
  // ---------------------------------------------------------------------------

  datatype Node =
    | Root
    | Top(kind: nat)
    | Window(kind: nat, row: nat)
    | Property(kind: nat, row: nat, property: nat, column: nat)

  /** The node exists, and its numbers stay within the bounds of the packing. */
  predicate Exists(m: Model, n: Node)
    requires m.Valid()
  {
    match n
    case Root => true
    case Top(k) => 1 <= k <= m.topLevelRows
    case Window(k, r) => 1 <= k <= m.topLevelRows && r < |m.OfKind(k)|
    case Property(k, r, p, c) => 1 <= k <= m.topLevelRows && r < |m.OfKind(k)| && p < m.OfKind(k)[r] && c < 2
  }

  /** At most 10000 windows of each kind, and fewer than 65535 properties of each window. */
  predicate Bounded(m: Model) {
    forall k :: 0 <= k < |m.windows| ==>
      |m.windows[k]| <= 10000 && forall r :: 0 <= r < |m.windows[k]| ==> m.windows[k][r] < 65535
  }

  function Encode(n: Node): Index {
    match n
    case Root => Invalid
    case Top(k) => Index(k - 1, 0, k)
    case Window(k, r) => Index(r, 0, ID_DISTANCE * k + r)
    case Property(k, r, p, c) => Index(p, c, (p + 1) * TWO_16 + ID_DISTANCE * k + r)
  }

  function ParentNode(n: Node): Node {
    match n
    case Root => Root
    case Top(_) => Root
    case Window(k, _) => Top(k)
    case Property(k, r, _, _) => Window(k, r)
  }

  /** The child of a node at a row and column. */
  function ChildNode(m: Model, n: Node, row: nat, column: nat): Option<Node>
    requires m.Valid()
  {
    var child := match n
                 case Root => Top(row + 1)
                 case Top(k) => Window(k, row)
                 case Window(k, r) => Property(k, r, row, column)
                 case Property(_, _, _, _) => Root;
    if child != Root && Exists(m, child) && (child.Property? || column == 0) then Some(child) else None
  }

  lemma ShiftedBits(p: nat, low: nat)
    requires low < TWO_16
    ensures WindowBits(p * TWO_16 + low) == low && PropertyBits(p * TWO_16 + low) == p % TWO_16
  {
    assert (p * TWO_16 + low) / TWO_16 == p;
  }

  lemma RowInKindExact(id: nat, kind: nat)
    requires 1 <= kind <= KINDS
    ensures RowInKind(id, kind) == WindowBits(id) - ID_DISTANCE * kind
  {
    var d := WindowBits(id) - ID_DISTANCE * kind;
    assert -TWO_31 < d < TWO_31;
    NarrowExact(d);
  }

  lemma NarrowExact(d: int)
    requires -TWO_31 < d < TWO_31
    ensures ToInt32(d % TWO_64) == d && ToInt32(d) == d
  {
    if d >= 0 {
      assert d % TWO_64 == d && d % TWO_32 == d;
    } else {
      assert d % TWO_64 == d + TWO_64;
      assert (d + TWO_64) % TWO_32 == d + TWO_32 by {
        assert d + TWO_64 == (d + TWO_32) + (TWO_32 - 1) * TWO_32;
      }
      assert d % TWO_32 == d + TWO_32;
    }
  }

  /** The window behind an index is found for exactly the node's own kind. */
  lemma WindowForIndexExactly(m: Model, n: Node, kind: nat)
    requires m.Valid() && Bounded(m) && Exists(m, n) && (n.Window? || n.Property?) && 1 <= kind <= KINDS
    ensures WindowForIndex(m, Encode(n), kind) == if kind == n.kind then Some(n.row) else None
  {
    var low := ID_DISTANCE * n.kind + n.row;
    ShiftedBits(if n.Property? then n.property + 1 else 0, low);
    assert |m.windows[n.kind - 1]| <= ID_DISTANCE && |m.windows[kind - 1]| <= ID_DISTANCE;
    RowInKindExact(Encode(n).id, kind);
  }

  lemma KindOfWindowId(k: nat, r: nat)
    requires 1 <= k <= KINDS && r < ID_DISTANCE
    ensures KindOfId(ID_DISTANCE * k + r) == Some(k)
  {
  }

  lemma PropertyIndexIsEncoded(m: Model, n: Node, row: nat, column: nat)
    requires m.Valid() && Bounded(m) && Exists(m, n) && n.Window?
    ensures MakeIndex(m, row, column, Encode(n)) ==
            if row < m.OfKind(n.kind)[n.row] && column < 2 then Encode(Property(n.kind, n.row, row, column)) else Invalid
  {
    assert |m.windows[n.kind - 1]| <= ID_DISTANCE && m.windows[n.kind - 1][n.row] < 65535;
    KindOfWindowId(n.kind, n.row);
    WindowForIndexExactly(m, n, n.kind);
    hide WindowForIndex;
  }

  /** index() yields the code of the child, if there is one, and else nothing. */
  lemma IndexIsEncoded(m: Model, n: Node, row: nat, column: nat)
    requires m.Valid() && Bounded(m) && Exists(m, n)
    ensures MakeIndex(m, row, column, Encode(n)) ==
            match ChildNode(m, n, row, column) case Some(child) => Encode(child) case None => Invalid
  {
    match n
    case Root =>
    case Top(k) =>
      assert |m.windows[k - 1]| <= ID_DISTANCE;
    case Window(k, r) => PropertyIndexIsEncoded(m, n, row, column);
    case Property(k, r, p, c) =>
      assert |m.windows[k - 1]| <= ID_DISTANCE;
      assert Encode(n).id >= TWO_16;
  }

  /** parent() undoes index(): the code of a node leads to the code of its parent. */
  lemma ParentRoundTrip(m: Model, n: Node)
    requires m.Valid() && Bounded(m) && Exists(m, n) && n != Root
    ensures ParentOf(Encode(n)) == Encode(ParentNode(n))
  {
    match n
    case Top(k) =>
    case Window(k, r) =>
      assert |m.windows[k - 1]| <= ID_DISTANCE;
      KindOfWindowId(k, r);
    case Property(k, r, p, c) =>
      assert |m.windows[k - 1]| <= ID_DISTANCE && m.windows[k - 1][r] < 65535;
      ShiftedBits(p + 1, ID_DISTANCE * k + r);
      KindOfWindowId(k, r);
      NarrowExact(r);
  }

  /** Every child that index() yields has the right parent. */
  lemma IndexThenParent(m: Model, n: Node, row: nat, column: nat)
    requires m.Valid() && Bounded(m) && Exists(m, n)
    ensures var i := MakeIndex(m, row, column, Encode(n)); i.Index? ==> ParentOf(i) == Encode(n)
  {
    IndexIsEncoded(m, n, row, column);
    match ChildNode(m, n, row, column)
    case Some(child) => ParentRoundTrip(m, child);
    case None =>
  }

  /** Different nodes, columns apart, have different ids. */
  lemma IdsDistinct(m: Model, a: Node, b: Node)
    requires m.Valid() && Bounded(m) && Exists(m, a) && Exists(m, b) && a != Root && b != Root
    requires Encode(a).id == Encode(b).id
    ensures a == b || (a.Property? && b.Property? && a.(column := b.column) == b)
  {
    LowPart(m, a);
    LowPart(m, b);
    ShiftedBits(if a.Property? then a.property + 1 else 0, Encode(if a.Property? then ParentNode(a) else a).id);
    ShiftedBits(if b.Property? then b.property + 1 else 0, Encode(if b.Property? then ParentNode(b) else b).id);
  }

  /** The id of a node that is not a property fits into the window bits and tells the node. */
  lemma LowPart(m: Model, n: Node)
    requires m.Valid() && Bounded(m) && Exists(m, n) && n != Root
    ensures var id := Encode(if n.Property? then ParentNode(n) else n).id;
            id < TWO_16 && (id <= KINDS <==> n.Top?) &&
            (!n.Top? ==> n.kind == id / ID_DISTANCE && n.row == id % ID_DISTANCE) && (n.Top? ==> n.kind == id) &&
            (n.Property? ==> n.property + 1 < TWO_16)
  {
    if !n.Top? {
      assert |m.windows[n.kind - 1]| <= ID_DISTANCE;
      if n.Property? {
        assert m.windows[n.kind - 1][n.row] < 65535;
      }
    }
  }

  // ---------------------------------------------------------------------------
  // How far the packing reaches
  // ---------------------------------------------------------------------------

  /** A window's index leads back to its kind exactly for the first 10000 windows of the kind. */
  lemma WindowRoundTripExactly(kind: nat, row: nat)
    requires 1 <= kind <= KINDS && row < TWO_31
    ensures ParentOf(Index(row, 0, (ID_DISTANCE * kind + row) % TWO_32)) == Index(kind - 1, 0, kind) <==> row < 10000
  {
    var id := ID_DISTANCE * kind + row;
    assert id % TWO_32 == id;
    if row < ID_DISTANCE {
      KindOfWindowId(kind, row);
    } else if PropertyBits(id) != 0 {
      var low := WindowBits(id);
      if low <= KINDS {
        NarrowExact(low - ID_DISTANCE);
      }
    } else {
      assert id < TWO_16;
    }
  }

  /** A property's index leads back to its window exactly unless the number behind it is a multiple of 65536. */
  lemma PropertyRoundTripExactly(kind: nat, row: nat, property: nat)
    requires 1 <= kind <= KINDS && row < ID_DISTANCE
    ensures ParentOf(Index(property, 0, (property + 1) * TWO_16 % TWO_32 + ID_DISTANCE * kind + row)) == Encode(Window(kind, row))
            <==> (property + 1) % TWO_16 != 0
  {
    var low := ID_DISTANCE * kind + row;
    var high := (property + 1) % TWO_16;
    ShiftTruncated(property + 1);
    ShiftedBits(high, low);
    KindOfWindowId(kind, row);
    NarrowExact(row);
  }

  lemma ShiftTruncated(n: nat)
    ensures n * TWO_16 % TWO_32 == (n % TWO_16) * TWO_16
  {
    var q, r := n / TWO_16, n % TWO_16;
    assert n == q * TWO_16 + r;
    assert n * TWO_16 == q * TWO_32 + r * TWO_16;
    assert 0 <= r * TWO_16 < TWO_32;
  }
}
