/** Immer-style patches on a JSON tree: conversation_state.rs, `apply_immer_patches` and below. */
module ImmerPatch {
  import opened Wrappers
  import opened Json

  datatype Segment = Key(key: string) | Index(index: nat)

  type Path = seq<Segment>

  datatype Op = Add | Remove | Replace

  datatype Patch = Patch(op: Op, path: Path, value: Option<Value>)

  datatype PatchError =
    | PathNotFound(segment: string)
    | IndexOutOfBounds(index: nat, len: nat)
    | UnexpectedType(kind: string)
    | MissingValue

  type Edited = Result<Value, PatchError>

  function Kind(v: Value): string {
    match v
    case Null => "null"
    case Bool(_) => "bool"
    case Number(_) => "number"
    case Str(_) => "string"
    case Array(_) => "array"
    case Object(_) => "object"
  }

  // ----- One level of the tree -----

  function Child(v: Value, s: Segment): Edited {
    match s
    case Key(k) =>
      if !v.Object? then Err(UnexpectedType(Kind(v)))
      else if k in v.fields then Ok(v.fields[k])
      else Err(PathNotFound(k))
    case Index(i) =>
      if !v.Array? then Err(UnexpectedType(Kind(v)))
      else if i < |v.items| then Ok(v.items[i])
      else Err(IndexOutOfBounds(i, |v.items|))
  }

  function SetChild(parent: Value, s: Segment, value: Value): Edited {
    match s
    case Key(k) =>
      if !parent.Object? then Err(UnexpectedType(Kind(parent)))
      else Ok(Object(parent.fields[k := value]))
    case Index(i) =>
      if !parent.Array? then Err(UnexpectedType(Kind(parent)))
      else if i >= |parent.items| then Err(IndexOutOfBounds(i, |parent.items|))
      else Ok(Array(parent.items[i := value]))
  }

  function AddChild(parent: Value, s: Segment, value: Value): Edited {
    match s
    case Key(k) =>
      if !parent.Object? then Err(UnexpectedType(Kind(parent)))
      else Ok(Object(parent.fields[k := value]))
    case Index(i) =>
      if !parent.Array? then Err(UnexpectedType(Kind(parent)))
      else if i > |parent.items| then Err(IndexOutOfBounds(i, |parent.items|))
      else Ok(Array(parent.items[..i] + [value] + parent.items[i..]))
  }

  function RemoveChild(parent: Value, s: Segment): Edited {
    match s
    case Key(k) =>
      if !parent.Object? then Err(UnexpectedType(Kind(parent)))
      else if k !in parent.fields then Err(PathNotFound(k))
      else Ok(Object(parent.fields - {k}))
    case Index(i) =>
      if !parent.Array? then Err(UnexpectedType(Kind(parent)))
      else if i >= |parent.items| then Err(IndexOutOfBounds(i, |parent.items|))
      else Ok(Array(parent.items[..i] + parent.items[i + 1..]))
  }

  function Edit(op: Op, parent: Value, s: Segment, value: Option<Value>): Edited {
    match op
    case Remove => RemoveChild(parent, s)
    case Replace => if value.None? then Err(MissingValue) else SetChild(parent, s, value.value)
    case Add => if value.None? then Err(MissingValue) else AddChild(parent, s, value.value)
  }

  // ----- Paths -----

  function Navigate(root: Value, path: Path): Edited {
    if path == [] then Ok(root)
    else
      match Child(root, path[0])
      case Err(e) => Err(e)
      case Ok(c) => Navigate(c, path[1..])
  }

  /** The tree with the value that `path` leads to overwritten. */
  function Put(root: Value, path: Path, value: Value): Value
    requires Navigate(root, path).Ok?
  {
    if path == [] then value
    else SetChild(root, path[0], Put(Child(root, path[0]).value, path[1..], value)).value
  }

  /** The tree with the edit made in the container that all but the last segment lead to. */
  function EditAt(root: Value, op: Op, path: Path, value: Option<Value>): Edited
    requires path != []
  {
    if |path| == 1 then Edit(op, root, path[0], value)
    else
      match Child(root, path[0])
      case Err(e) => Err(e)
      case Ok(c) =>
        match EditAt(c, op, path[1..], value)
        case Err(e) => Err(e)
        case Ok(c') => SetChild(root, path[0], c')
  }

  function ApplyPatch(root: Value, p: Patch): Edited {
    if p.path != [] then EditAt(root, p.op, p.path, p.value)
    else if p.op.Remove? then Ok(Null)
    else if p.value.None? then Err(MissingValue)
    else Ok(p.value.value)
  }

  /** Where a batch stops: the tree reached, and the error that stopped it, if any. */
  datatype Batch = Batch(root: Value, error: Option<PatchError>)

  function ApplyPatches(root: Value, patches: seq<Patch>): Batch
    decreases |patches|
  {
    if patches == [] then Batch(root, None)
    else
      match ApplyPatch(root, patches[0])
      case Err(e) => Batch(root, Some(e))
      case Ok(next) => ApplyPatches(next, patches[1..])
  }

  // ----- In place -----

  /** A tree that patches change in place. */
  class Document {
    var root: Value

    constructor (v: Value)
      ensures root == v
    {
      root := v;
    }

    method NavigateToPath(path: Path) returns (r: Edited)
      ensures r == Navigate(root, path)
    {
      var current := root;
      var i := 0;
      while i < |path|
        invariant 0 <= i <= |path|
        invariant Navigate(current, path[i..]) == Navigate(root, path)
      {
        var next := Child(current, path[i]);
        if next.Err? {
          return next;
        }
        current := next.value;
        assert path[i..][1..] == path[i + 1..];
        i := i + 1;
      }
      return Ok(current);
    }

    method ApplyOneImmerPatch(p: Patch) returns (r: Result<(), PatchError>)
      modifies this
      ensures match ApplyPatch(old(root), p)
              case Ok(v) => r == Ok(()) && root == v
              case Err(e) => r == Err(e) && root == old(root)
    {
      if p.path == [] {
        if p.op.Remove? {
          root := Null;
        } else if p.value.None? {
          return Err(MissingValue);
        } else {
          root := p.value.value;
        }
        return Ok(());
      }
      var parentPath, last := p.path[..|p.path| - 1], p.path[|p.path| - 1];
      EditAtParent(root, p.op, p.path, p.value);
      var parent := NavigateToPath(parentPath);
      if parent.Err? {
        return Err(parent.error);
      }
      var edited := Edit(p.op, parent.value, last, p.value);
      if edited.Err? {
        return Err(edited.error);
      }
      root := Put(root, parentPath, edited.value);
      return Ok(());
    }

    /** Stops at the first patch that fails, keeping the effect of those before it. */
    method ApplyImmerPatches(patches: seq<Patch>) returns (r: Result<(), PatchError>)
      modifies this
      ensures root == ApplyPatches(old(root), patches).root
      ensures match ApplyPatches(old(root), patches).error
              case None => r == Ok(())
              case Some(e) => r == Err(e)
    {
      var i := 0;
      while i < |patches|
        invariant 0 <= i <= |patches|
        invariant ApplyPatches(root, patches[i..]) == ApplyPatches(old(root), patches)
      {
        assert patches[i..][1..] == patches[i + 1..];
        var one := ApplyOneImmerPatch(patches[i]);
        if one.Err? {
          return one;
        }
        i := i + 1;
      }
      return Ok(());
    }
  }

  /** Editing at a path is finding the parent, editing it, and putting it back. */
  lemma {:induction false} EditAtParent(root: Value, op: Op, path: Path, value: Option<Value>)
    requires path != []
    ensures var parent := Navigate(root, path[..|path| - 1]);
            EditAt(root, op, path, value) ==
            match parent
            case Err(e) => Err(e)
            case Ok(v) =>
              match Edit(op, v, path[|path| - 1], value)
              case Err(e) => Err(e)
              case Ok(v') => Ok(Put(root, path[..|path| - 1], v'))
  {
    var front := path[..|path| - 1];
    if |path| > 1 {
      assert front[1..] == path[1..][..|path[1..]| - 1];
      if Child(root, path[0]).Ok? {
        EditAtParent(Child(root, path[0]).value, op, path[1..], value);
      }
    }
  }

  // ----- When a patch applies, and how it fails -----

  /** Reading one level: a key of an object, an index of an array. */
  lemma ChildExactly(v: Value, s: Segment, c: Value)
    ensures Child(v, s) == Ok(c) <==>
              match s
              case Key(k) => v.Object? && k in v.fields && v.fields[k] == c
              case Index(i) => v.Array? && i < |v.items| && v.items[i] == c
  {
  }

  /** May the edit be made in `parent`? An array element may be added at its end, a key written whether there or not. */
  predicate Fits(op: Op, parent: Value, s: Segment) {
    match s
    case Key(k) => parent.Object? && (op.Remove? ==> k in parent.fields)
    case Index(i) => parent.Array? && i < |parent.items| + if op.Add? then 1 else 0
  }

  /** A patch applies exactly when its parent is there and takes it, and it has a value if it writes one. */
  lemma {:induction false} AppliesExactly(root: Value, p: Patch)
    ensures ApplyPatch(root, p).Ok? <==>
              && (p.op.Remove? || p.value.Some?)
              && (p.path == [] ||
                    var n := |p.path| - 1;
                    Navigate(root, p.path[..n]).Ok? && Fits(p.op, Navigate(root, p.path[..n]).value, p.path[n]))
  {
    hide Navigate, EditAt;
    if p.path != [] {
      EditAtParent(root, p.op, p.path, p.value);
    }
  }

  /** What is wrong with the first segment of a path, or with the edit, that fails. */
  function Complaint(parent: Value, s: Segment): PatchError {
    match s
    case Key(k) => if parent.Object? then PathNotFound(k) else UnexpectedType(Kind(parent))
    case Index(i) => if parent.Array? then IndexOutOfBounds(i, |parent.items|) else UnexpectedType(Kind(parent))
  }

  /** The error is that of the way to the parent, then a missing value, then that of the edit. */
  lemma {:induction false} FailsAs(root: Value, p: Patch)
    requires ApplyPatch(root, p).Err?
    ensures var n := if p.path == [] then 0 else |p.path| - 1;
            ApplyPatch(root, p).error ==
            if Navigate(root, p.path[..n]).Err? then Navigate(root, p.path[..n]).error
            else if !p.op.Remove? && p.value.None? then MissingValue
            else if p.path == [] then MissingValue
            else Complaint(Navigate(root, p.path[..n]).value, p.path[n])
  {
    hide EditAt;
    if p.path != [] {
      EditAtParent(root, p.op, p.path, p.value);
    }
  }

  /** A walk fails where it first cannot go on, and says why. */
  lemma {:induction false} NavigateFailsAs(root: Value, path: Path, s: Segment, more: Path)
    requires Navigate(root, path).Ok? && Child(Navigate(root, path).value, s).Err?
    ensures Navigate(root, path + [s] + more) == Err(Complaint(Navigate(root, path).value, s))
  {
    var all := path + [s] + more;
    if path == [] {
      assert all[0] == s;
    } else {
      assert all[0] == path[0] && all[1..] == path[1..] + [s] + more;
      NavigateFailsAs(Child(root, path[0]).value, path[1..], s, more);
    }
  }

  /** The kinds that an error names. */
  lemma KindNames(b: bool, n: string, t: string, items: seq<Value>, fields: map<string, Value>)
    ensures Kind(Null) == "null" && Kind(Bool(b)) == "bool" && Kind(Number(n)) == "number" && Kind(Str(t)) == "string"
    ensures Kind(Array(items)) == "array" && Kind(Object(fields)) == "object"
  {
  }

  /** At the root, writing replaces the tree and removing leaves null. */
  lemma RootPatches(root: Value, value: Value)
    ensures ApplyPatch(root, Patch(Add, [], Some(value))) == Ok(value)
    ensures ApplyPatch(root, Patch(Replace, [], Some(value))) == Ok(value)
    ensures ApplyPatch(root, Patch(Remove, [], None)) == Ok(Null)
  {
  }

  /** A removed key is gone, and so is a removed last element. */
  lemma {:induction false} RemovedIsGone(root: Value, path: Path)
    requires path != [] && ApplyPatch(root, Patch(Remove, path, None)).Ok?
    requires path[|path| - 1].Index? ==>
               var parent := Navigate(root, path[..|path| - 1]);
               parent.Ok? && parent.value.Array? && path[|path| - 1].index + 1 == |parent.value.items|
    ensures Navigate(ApplyPatch(root, Patch(Remove, path, None)).value, path).Err?
  {
    if |path| == 1 {
      assert path[..0] == [];
      var r := ApplyPatch(root, Patch(Remove, path, None)).value;
      assert Navigate(r, path) == match Child(r, path[0]) case Err(e) => Err(e) case Ok(c) => Navigate(c, path[1..]);
    } else {
      var c := Child(root, path[0]).value;
      var c' := EditAt(c, Remove, path[1..], None).value;
      assert path[..|path| - 1][1..] == path[1..][..|path[1..]| - 1];
      RemovedIsGone(c, path[1..]);
      SetThenChild(root, path[0], c', path[0]);
    }
  }

  // ----- Patch algebra -----

  /** Neither path leads into or through the other. */
  predicate Incomparable(p: Path, q: Path) {
    !(p <= q) && !(q <= p)
  }

  lemma IncomparableTails(p: Path, q: Path)
    requires Incomparable(p, q)
    ensures p != [] && q != []
    ensures p[0] == q[0] ==> Incomparable(p[1..], q[1..]) && |p| > 1
  {
    if p[0] == q[0] {
      assert p == [p[0]] + p[1..] && q == [q[0]] + q[1..];
    }
  }

  lemma SetThenChild(v: Value, s: Segment, x: Value, t: Segment)
    requires SetChild(v, s, x).Ok?
    ensures Child(SetChild(v, s, x).value, s) == Ok(x)
    ensures s != t ==> Child(SetChild(v, s, x).value, t) == Child(v, t)
  {
  }

  /** A successful patch that writes a value can be read back at its path. */
  lemma {:induction false} ReadBack(root: Value, p: Patch)
    requires ApplyPatch(root, p).Ok? && !p.op.Remove?
    ensures p.value.Some? && Navigate(ApplyPatch(root, p).value, p.path) == Ok(p.value.value)
  {
    if |p.path| > 1 {
      var c := Child(root, p.path[0]).value;
      ReadBack(c, p.(path := p.path[1..]));
    } else if |p.path| == 1 {
      var r := ApplyPatch(root, p).value;
      assert p.path[1..] == [];
      assert Navigate(r, p.path) == Child(r, p.path[0]);
    }
  }

  /** Does a patch move the later elements of an array? */
  predicate Shifts(p: Patch) {
    !p.op.Replace? && p.path != [] && p.path[|p.path| - 1].Index?
  }

  /** A successful patch that moves nothing leaves every incomparable path as it was, errors included. */
  lemma {:induction false} FrameUnshifted(root: Value, p: Patch, q: Path)
    requires ApplyPatch(root, p).Ok? && !Shifts(p) && Incomparable(p.path, q)
    ensures Navigate(ApplyPatch(root, p).value, q) == Navigate(root, q)
  {
    IncomparableTails(p.path, q);
    if |p.path| > 1 {
      var c := Child(root, p.path[0]).value;
      SetThenChild(root, p.path[0], EditAt(c, p.op, p.path[1..], p.value).value, q[0]);
      if p.path[0] == q[0] {
        FrameUnshifted(c, p.(path := p.path[1..]), q[1..]);
      }
    } else {
      assert Child(ApplyPatch(root, p).value, q[0]) == Child(root, q[0]);
    }
  }

  /** Where an element found at `q` is after an array Add or Remove. */
  function Relocate(p: Patch, q: Path): Path
    requires Shifts(p)
  {
    var n := |p.path| - 1;
    if p.path[..n] < q && q[n].Index? then
      var i, j := p.path[n].index, q[n].index;
      if p.op.Add? && i <= j then q[n := Index(j + 1)]
      else if p.op.Remove? && i < j then q[n := Index(j - 1)]
      else q
    else q
  }

  /**
    An array Add or Remove moves each later sibling, with all it holds, by exactly one place,
    and leaves everything else that is not on the way to the array where it was.
   */
  lemma {:induction false} FrameShifted(root: Value, p: Patch, q: Path)
    requires ApplyPatch(root, p).Ok? && Shifts(p) && Navigate(root, q).Ok?
    requires !(q <= p.path[..|p.path| - 1]) && (p.op.Remove? ==> !(p.path <= q))
    ensures Navigate(ApplyPatch(root, p).value, Relocate(p, q)) == Navigate(root, q)
    decreases |p.path|
  {
    hide Navigate, Relocate, Edit;
    if |p.path| == 1 {
      ShiftInArray(root, p, q);
    } else {
      var c := Child(root, p.path[0]).value;
      var c' := EditAt(c, p.op, p.path[1..], p.value).value;
      var tail := p.(path := p.path[1..]);
      SetThenChild(root, p.path[0], c', q[0]);
      RelocateTail(p, q);
      NavigateFirst(root, q);
      NavigateFirst(ApplyPatch(root, p).value, Relocate(p, q));
      if p.path[0] == q[0] {
        FrameShifted(c, tail, q[1..]);
      }
    }
  }

  lemma NavigateFirst(root: Value, path: Path)
    requires path != []
    ensures Navigate(root, path) ==
            match Child(root, path[0]) case Err(e) => Err(e) case Ok(c) => Navigate(c, path[1..])
  {
  }

  lemma RelocateTail(p: Patch, q: Path)
    requires Shifts(p) && |p.path| > 1 && q != []
    ensures |Relocate(p, q)| == |q| && Relocate(p, q)[0] == q[0]
    ensures p.path[0] == q[0] ==>
              && Relocate(p, q)[1..] == Relocate(p.(path := p.path[1..]), q[1..])
              && (q[1..] <= p.path[1..][..|p.path| - 2] ==> q <= p.path[..|p.path| - 1])
              && (p.path[1..] <= q[1..] ==> p.path <= q)
    ensures p.path[0] != q[0] ==> Relocate(p, q) == q
  {
    var n := |p.path| - 1;
    assert p.path == [p.path[0]] + p.path[1..] && q == [q[0]] + q[1..];
    assert p.path[..n] == [p.path[0]] + p.path[1..][..n - 1];
  }

  lemma ShiftedChild(root: Value, p: Patch, s: Segment)
    requires ApplyPatch(root, p).Ok? && Shifts(p) && |p.path| == 1 && Child(root, s).Ok?
    requires p.op.Remove? ==> s != p.path[0]
    ensures s.Index?
    ensures var i, j := p.path[0].index, s.index;
            var j' := if p.op.Add? && i <= j then j + 1 else if p.op.Remove? && i < j then j - 1 else j;
            Child(ApplyPatch(root, p).value, Index(j')) == Child(root, s)
  {
  }

  lemma ShiftInArray(root: Value, p: Patch, q: Path)
    requires ApplyPatch(root, p).Ok? && Shifts(p) && Navigate(root, q).Ok? && |p.path| == 1
    requires q != [] && (p.op.Remove? ==> !(p.path <= q))
    ensures Navigate(ApplyPatch(root, p).value, Relocate(p, q)) == Navigate(root, q)
  {
    hide Navigate;
    var q' := Relocate(p, q);
    assert p.path[..0] == [] && p.path == [p.path[0]];
    assert q[0] == p.path[0] ==> p.path <= q;
    assert q'[1..] == q[1..];
    NavigateFirst(root, q);
    NavigateFirst(ApplyPatch(root, p).value, q');
    ShiftedChild(root, p, q[0]);
  }

  /** Overwriting a child with itself, or twice, is a no-op. */
  lemma SetChildLaws(v: Value, s: Segment, x: Value, y: Value)
    requires SetChild(v, s, x).Ok?
    ensures SetChild(SetChild(v, s, x).value, s, y) == SetChild(v, s, y)
    ensures Child(v, s).Ok? ==> SetChild(v, s, Child(v, s).value) == Ok(v)
  {
    match s
    case Key(k) => assert v.fields[k := x][k := y] == v.fields[k := y];
      assert k in v.fields ==> v.fields[k := v.fields[k]] == v.fields;
    case Index(i) => assert v.items[i := x][i := y] == v.items[i := y];
      assert v.items[i := v.items[i]] == v.items;
  }

  /** Undoing an edit of a child undoes it in the tree, and only that does. */
  lemma {:induction false} EditAtInverse(
      root: Value, path: Path, op: Op, value: Option<Value>, op': Op, value': Option<Value>)
    requires path != [] && EditAt(root, op, path, value).Ok?
    ensures Navigate(root, path[..|path| - 1]).Ok?
    ensures var v := Navigate(root, path[..|path| - 1]).value;
            && Edit(op, v, path[|path| - 1], value).Ok?
            && (EditAt(EditAt(root, op, path, value).value, op', path, value') == Ok(root)
                <==> Edit(op', Edit(op, v, path[|path| - 1], value).value, path[|path| - 1], value') == Ok(v))
  {
    if |path| > 1 {
      var front := path[..|path| - 1];
      assert front[1..] == path[1..][..|path[1..]| - 1];
      var c := Child(root, path[0]).value;
      EditAtInverse(c, path[1..], op, value, op', value');
      var c' := EditAt(c, op, path[1..], value).value;
      SetThenChild(root, path[0], c', path[0]);
      var undone := EditAt(c', op', path[1..], value');
      if undone.Ok? {
        SetChildLaws(root, path[0], c', undone.value);
        SetThenChild(root, path[0], undone.value, path[0]);
        SetChildLaws(root, path[0], c', c);
      }
    } else {
      assert path[..0] == [];
    }
  }

  /** Remove undoes Add exactly at an array index, at a key that was absent, or at the root of null. */
  lemma {:induction false} RemoveUndoesAdd(root: Value, path: Path, value: Value)
    requires ApplyPatch(root, Patch(Add, path, Some(value))).Ok?
    ensures ApplyPatch(ApplyPatch(root, Patch(Add, path, Some(value))).value, Patch(Remove, path, None)) == Ok(root)
       <==> if path == [] then root == Null else path[|path| - 1].Index? || Navigate(root, path).Err?
  {
    if path != [] {
      var n := |path| - 1;
      EditAtInverse(root, path, Add, Some(value), Remove, None);
      var v, s := Navigate(root, path[..n]).value, path[n];
      NavigateLast(root, path);
      match s
      case Index(i) =>
        var added := v.items[..i] + [value] + v.items[i..];
        assert added[..i] + added[i + 1..] == v.items;
      case Key(k) =>
        if k !in v.fields {
          assert v.fields[k := value] - {k} == v.fields;
        } else {
          assert k !in v.fields[k := value] - {k};
        }
    }
  }

  lemma AddChildUndoes(v: Value, s: Segment)
    requires RemoveChild(v, s).Ok?
    ensures Child(v, s).Ok? && AddChild(RemoveChild(v, s).value, s, Child(v, s).value) == Ok(v)
  {
    match s
    case Index(i) =>
      var removed := v.items[..i] + v.items[i + 1..];
      assert removed[..i] + [v.items[i]] + removed[i..] == v.items;
    case Key(k) =>
      assert (v.fields - {k})[k := v.fields[k]] == v.fields;
  }

  /** Add undoes Remove, given the value that was there. */
  lemma {:induction false} AddUndoesRemove(root: Value, path: Path)
    requires path != [] && ApplyPatch(root, Patch(Remove, path, None)).Ok?
    ensures Navigate(root, path).Ok?
    ensures var removed := ApplyPatch(root, Patch(Remove, path, None)).value;
            ApplyPatch(removed, Patch(Add, path, Some(Navigate(root, path).value))) == Ok(root)
  {
    hide Navigate, EditAt, RemoveChild, AddChild, Child;
    var n := |path| - 1;
    EditAtInverse(root, path, Remove, None, Remove, None);
    var v, s := Navigate(root, path[..n]).value, path[n];
    NavigateLast(root, path);
    AddChildUndoes(v, s);
    EditAtInverse(root, path, Remove, None, Add, Some(Child(v, s).value));
  }

  lemma {:induction false} NavigateLast(root: Value, path: Path)
    requires path != [] && Navigate(root, path[..|path| - 1]).Ok?
    ensures Navigate(root, path) == Child(Navigate(root, path[..|path| - 1]).value, path[|path| - 1])
  {
    var front := path[..|path| - 1];
    if |path| > 1 {
      assert front[1..] == path[1..][..|path[1..]| - 1];
      NavigateLast(Child(root, path[0]).value, path[1..]);
    } else {
      assert path[1..] == [];
    }
  }

  lemma SetChildCommutes(v: Value, s: Segment, x: Value, t: Segment, y: Value)
    requires s != t && SetChild(v, s, x).Ok? && SetChild(v, t, y).Ok?
    ensures SetChild(SetChild(v, s, x).value, t, y) == SetChild(SetChild(v, t, y).value, s, x)
    ensures SetChild(SetChild(v, s, x).value, t, y).Ok?
  {
    if s.Key? {
      assert v.fields[s.key := x][t.key := y] == v.fields[t.key := y][s.key := x];
    } else {
      assert v.items[s.index := x][t.index := y] == v.items[t.index := y][s.index := x];
    }
  }

  /** Two Replaces that each succeed, at incomparable paths, succeed in either order with one result. */
  lemma {:induction false} ReplacesCommute(root: Value, p: Path, x: Value, q: Path, y: Value)
    requires Incomparable(p, q)
    requires ApplyPatch(root, Patch(Replace, p, Some(x))).Ok? && ApplyPatch(root, Patch(Replace, q, Some(y))).Ok?
    ensures var px, qy := Patch(Replace, p, Some(x)), Patch(Replace, q, Some(y));
            && ApplyPatch(ApplyPatch(root, px).value, qy).Ok?
            && ApplyPatch(ApplyPatch(root, px).value, qy) == ApplyPatch(ApplyPatch(root, qy).value, px)
  {
    IncomparableTails(p, q);
    var px, qy := Patch(Replace, p, Some(x)), Patch(Replace, q, Some(y));
    if p[0] == q[0] {
      IncomparableTails(p[1..], q[1..]);
      var c := Child(root, p[0]).value;
      ReplacesCommute(c, p[1..], x, q[1..], y);
      var cx, cy := EditAt(c, Replace, p[1..], Some(x)).value, EditAt(c, Replace, q[1..], Some(y)).value;
      var both := EditAt(cx, Replace, q[1..], Some(y)).value;
      SetThenChild(root, p[0], cx, p[0]);
      SetThenChild(root, p[0], cy, p[0]);
      SetChildLaws(root, p[0], cx, both);
      SetChildLaws(root, p[0], cy, both);
    } else {
      var cx, cy := ReplacedChild(root, p, x), ReplacedChild(root, q, y);
      SetThenChild(root, p[0], cx, q[0]);
      SetThenChild(root, q[0], cy, p[0]);
      SetChildCommutes(root, p[0], cx, q[0], cy);
      assert ReplacedChild(SetChild(root, q[0], cy).value, p, x) == cx;
      assert ReplacedChild(SetChild(root, p[0], cx).value, q, y) == cy;
    }
  }

  /** What a Replace below the first segment of its path makes of that child. */
  ghost function ReplacedChild(root: Value, p: Path, x: Value): (c: Value)
    requires p != [] && EditAt(root, Replace, p, Some(x)).Ok?
    ensures SetChild(root, p[0], c) == EditAt(root, Replace, p, Some(x))
  {
    if |p| == 1 then x else EditAt(Child(root, p[0]).value, Replace, p[1..], Some(x)).value
  }

  // ----- Batches -----

  /** A batch split in two is the same as the whole, provided the first part succeeds. */
  lemma {:induction false} BatchesConcat(root: Value, a: seq<Patch>, b: seq<Patch>)
    ensures var first := ApplyPatches(root, a);
            ApplyPatches(root, a + b) == if first.error.None? then ApplyPatches(first.root, b) else first
    decreases |a|
  {
    if a == [] {
      assert a + b == b;
    } else {
      assert (a + b)[1..] == a[1..] + b;
      if ApplyPatch(root, a[0]).Ok? {
        BatchesConcat(ApplyPatch(root, a[0]).value, a[1..], b);
      }
    }
  }

  /** Left to itself a batch stops half applied: what precedes the failing patch stays done. */
  lemma {:induction false} BatchStopsHalfway(root: Value, done: seq<Patch>, bad: Patch, after: seq<Patch>)
    requires ApplyPatches(root, done).error.None?
    requires ApplyPatch(ApplyPatches(root, done).root, bad).Err?
    ensures ApplyPatches(root, done + ([bad] + after))
         == Batch(ApplyPatches(root, done).root, Some(ApplyPatch(ApplyPatches(root, done).root, bad).error))
  {
    BatchesConcat(root, done, [bad] + after);
  }
}
