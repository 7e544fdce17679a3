/** Values, storage and primitive operators shared by the source language and the virtual machine. */
module Values {
  import opened Options

  /** A storage location: element 0 of a global's own box, or one element of a frame's box. */
  datatype Loc = GlobalLoc(g: nat) | LocalLoc(box: nat, elt: nat)

  datatype Value =
    | Void
    | Int(i: int)
    | Bool(b: bool)
    | Func(f: nat)
    | Ref(loc: Loc)
    | Other(id: int)

  const TrueVal: Value := Bool(true)
  const FalseVal: Value := Bool(false)

  /** The standard exceptions the modelled instructions raise, with their arguments. */
  datatype Exn =
    | UninitializedValue
    | InvalidArgument(v: Value)
    | InvalidUnop(v: Value)
    | InvalidBinop(left: Value, right: Value)
    | InvalidArrayBounds(v: Value)
    | BadArgCount(given: nat, formal: nat)
    | Failed(code: int)

  datatype OpResult = Val(v: Value) | Raise(x: Exn)

  /** The primitive operators.  Nothing is assumed about them beyond being functions of their operands. */
  datatype Prims = Prims(
    binary: (nat, Value, Value) -> OpResult,
    unary: (nat, Value) -> OpResult,
    incDec: (nat, Value) -> OpResult,
    equal: (Value, Value) -> OpResult)

  /** A cell is empty until it is first assigned. */
  type Cell = Option<Value>
  type Box = seq<Cell>

  datatype Store = Store(globals: Box, boxes: seq<Box>)

  predicate InStore(st: Store, loc: Loc) {
    match loc
    case GlobalLoc(g) => g < |st.globals|
    case LocalLoc(b, e) => b < |st.boxes| && e < |st.boxes[b]|
  }

  function Read(st: Store, loc: Loc): Cell {
    if !InStore(st, loc) then None
    else match loc
      case GlobalLoc(g) => st.globals[g]
      case LocalLoc(b, e) => st.boxes[b][e]
  }

  function Write(st: Store, loc: Loc, v: Value): Store
    requires InStore(st, loc)
  {
    match loc
    case GlobalLoc(g) => st.(globals := st.globals[g := Some(v)])
    case LocalLoc(b, e) => st.(boxes := st.boxes[b := st.boxes[b][e := Some(v)]])
  }

  /** Storing the value a cell already holds changes nothing. */
  lemma WriteSame(st: Store, loc: Loc, v: Value)
    requires InStore(st, loc) && Read(st, loc) == Some(v)
    ensures Write(st, loc, v) == st
  {
    match loc
    case GlobalLoc(g) => assert st.globals[g := Some(v)] == st.globals;
    case LocalLoc(b, e) =>
      assert st.boxes[b][e := Some(v)] == st.boxes[b];
      assert st.boxes[b := st.boxes[b]] == st.boxes;
  }

  /** A fresh box holding the arguments followed by empty automatic variables. */
  function NewBox(args: seq<Value>, autos: nat): Box {
    seq(|args|, i requires 0 <= i < |args| => Some(args[i])) + seq(autos, _ => None)
  }

  function Alloc(st: Store, box: Box): Store {
    st.(boxes := st.boxes + [box])
  }

  // ----- what the store functions do, cell by cell -----

  /** A location is read as the cell that it names, and as empty if there is none. */
  lemma ReadCell(st: Store, loc: Loc, v: Value)
    ensures Read(st, loc) == Some(v) <==>
      || (loc.GlobalLoc? && loc.g < |st.globals| && st.globals[loc.g] == Some(v))
      || (loc.LocalLoc? && loc.box < |st.boxes| && loc.elt < |st.boxes[loc.box]| &&
          st.boxes[loc.box][loc.elt] == Some(v))
  {
  }

  /** Writing puts the value into one cell; all others, and all lengths, stay as they are. */
  lemma WriteCells(st: Store, loc: Loc, v: Value)
    requires InStore(st, loc)
    ensures
      var r := Write(st, loc, v);
      && |r.globals| == |st.globals| && |r.boxes| == |st.boxes|
      && (forall b :: 0 <= b < |st.boxes| ==> |r.boxes[b]| == |st.boxes[b]|)
      && (forall g: nat :: g < |st.globals| ==>
            r.globals[g] == if loc == GlobalLoc(g) then Some(v) else st.globals[g])
      && (forall b: nat, e: nat :: b < |st.boxes| && e < |st.boxes[b]| ==>
            r.boxes[b][e] == if loc == LocalLoc(b, e) then Some(v) else st.boxes[b][e])
  {
  }

  /** A box holds the arguments in their order, and nothing behind. */
  lemma NewBoxCells(args: seq<Value>, autos: nat)
    ensures
      var r := NewBox(args, autos);
      && |r| == |args| + autos
      && (forall i :: 0 <= i < |args| ==> r[i] == Some(args[i]))
      && (forall i :: |args| <= i < |r| ==> r[i] == None)
  {
  }

  /** A new box is the last; the others and the globals stay as they are. */
  lemma AllocCells(st: Store, box: Box)
    ensures
      var r := Alloc(st, box);
      && r.globals == st.globals && |r.boxes| == |st.boxes| + 1 && r.boxes[|st.boxes|] == box
      && forall b :: 0 <= b < |st.boxes| ==> r.boxes[b] == st.boxes[b]
  {
  }

  /** So what is written is what is read there, and everywhere else what was read before. */
  lemma ReadWritten(st: Store, loc: Loc, v: Value, other: Loc)
    requires InStore(st, loc)
    ensures Read(Write(st, loc, v), other) == if other == loc then Some(v) else Read(st, other)
  {
  }
}
