/** Documents with the identity of their dictionaries and lists, so that two documents can share one. */
module SharedNodes {
  import opened Results
  import opened Trees
  import opened YesNo

  /** Whose turn loads a document: the input document itself, or a default file loaded for it. */
  datatype Origin = Origin(turn: nat, file: Option<nat>)

  datatype Step = Key(key: string) | At(index: nat)

  /**
   * An object: one of a loaded document, by the place where it was loaded, or a list that the `merge`-th
   * merge of a turn made for a key of a dictionary.
   */
  datatype Id =
    | Loaded(origin: Origin, path: seq<Step>)
    | Made(turn: nat, merge: nat, owner: Id, key: string)

  /** A document whose dictionaries and lists are objects. */
  datatype Node =
    | Scal(scalar: Scalar)
    | Dict(id: Id, keys: seq<string>, vals: map<string, Node>)
    | Items(id: Id, items: seq<Node>)

  /** What a document says. */
  function Erase(n: Node): (t: Tree)
    ensures (n.Scal? <==> t.Leaf?) && (n.Dict? <==> t.Obj?) && (n.Items? <==> t.List?)
  {
    match n
    case Scal(s) => Leaf(s)
    case Dict(_, keys, vals) => Obj(keys, map k | k in vals :: Erase(vals[k]))
    case Items(_, items) => List(seq(|items|, i requires 0 <= i < |items| => Erase(items[i])))
  }

  function EraseAll(ns: seq<Node>): (ts: seq<Tree>)
    ensures |ts| == |ns| && forall i :: 0 <= i < |ns| ==> ts[i] == Erase(ns[i])
  {
    seq(|ns|, i requires 0 <= i < |ns| => Erase(ns[i]))
  }

  ghost predicate Formed(n: Node) {
    WellFormed(Erase(n))
  }

  /** A document as loaded: every object is new. */
  function Label(t: Tree, origin: Origin, path: seq<Step>): Node {
    match t
    case Leaf(s) => Scal(s)
    case List(items) =>
      Items(Loaded(origin, path), seq(|items|, i requires 0 <= i < |items| => Label(items[i], origin, path + [At(i)])))
    case Obj(keys, vals) =>
      Dict(Loaded(origin, path), keys, map k | k in vals :: Label(vals[k], origin, path + [Key(k)]))
  }

  lemma {:induction false} EraseLabel(t: Tree, origin: Origin, path: seq<Step>)
    ensures Erase(Label(t, origin, path)) == t
    decreases t
  {
    match t
    case Leaf(_) =>
    case List(items) =>
      forall i | 0 <= i < |items| ensures Erase(Label(items[i], origin, path + [At(i)])) == items[i] {
        EraseLabel(items[i], origin, path + [At(i)]);
      }
      assert Erase(Label(t, origin, path)).items == items;
    case Obj(keys, vals) =>
      forall k | k in vals ensures Erase(Label(vals[k], origin, path + [Key(k)])) == vals[k] {
        EraseLabel(vals[k], origin, path + [Key(k)]);
      }
      assert Erase(Label(t, origin, path)).vals == vals;
  }

  lemma FormedPart(n: Node, k: string)
    requires n.Dict? && Formed(n)
    ensures k in n.keys <==> k in n.vals
    ensures k in n.vals ==> Formed(n.vals[k])
  {
    assert k in n.vals ==> Erase(n).vals[k] == Erase(n.vals[k]);
  }

  lemma FormedItem(n: Node, i: nat)
    requires n.Items? && Formed(n) && i < |n.items|
    ensures Formed(n.items[i])
  {
    assert Erase(n).items[i] == Erase(n.items[i]);
  }

  // ---------- writing to shared objects ----------

  /** Both stand for the same dictionary or the same list. */
  predicate Same(a: Node, b: Node) {
    match a
    case Scal(_) => false
    case Dict(id, _, _) => b.Dict? && b.id == id
    case Items(id, _) => b.Items? && b.id == id
  }

  /** The object `o` as it stands in the document `w`. */
  function Find(w: Node, o: Node): (r: Option<Node>)
    ensures r.Some? ==> Same(o, r.value)
    decreases w, 1, 0
  {
    if Same(o, w) then Some(w)
    else
      match w
      case Scal(_) => None
      case Dict(_, keys, vals) => FindField(w, |keys|, o)
      case Items(_, items) => FindItem(w, |items|, o)
  }

  function FindField(w: Node, n: nat, o: Node): (r: Option<Node>)
    requires w.Dict? && n <= |w.keys|
    ensures r.Some? ==> Same(o, r.value)
    decreases w, 0, n
  {
    if n == 0 then None
    else
      var key := w.keys[n - 1];
      var found := if key in w.vals then Find(w.vals[key], o) else None;
      if found.Some? then found else FindField(w, n - 1, o)
  }

  function FindItem(w: Node, n: nat, o: Node): (r: Option<Node>)
    requires w.Items? && n <= |w.items|
    ensures r.Some? ==> Same(o, r.value)
    decreases w, 0, n
  {
    if n == 0 then None
    else
      var found := Find(w.items[n - 1], o);
      if found.Some? then found else FindItem(w, n - 1, o)
  }

  /** The document `t` after `w` has been written: the objects of `t` that `w` has are as they stand in `w`. */
  function Sync(t: Node, w: Node): (r: Node)
    ensures (t.Scal? ==> r == t) && (t.Dict? <==> r.Dict?) && (t.Items? <==> r.Items?)
    decreases t
  {
    var found := Find(w, t);
    if found.Some? then found.value
    else
      match t
      case Scal(_) => t
      case Dict(id, keys, vals) => Dict(id, keys, map k | k in vals :: Sync(vals[k], w))
      case Items(id, items) => Items(id, seq(|items|, i requires 0 <= i < |items| => Sync(items[i], w)))
  }

  function SyncAll(ts: seq<Node>, w: Node): (r: seq<Node>)
    ensures |r| == |ts| && forall i :: 0 <= i < |ts| ==> r[i] == Sync(ts[i], w)
  {
    seq(|ts|, i requires 0 <= i < |ts| => Sync(ts[i], w))
  }

  lemma {:induction false} FindKeepsForm(w: Node, o: Node)
    requires Formed(w)
    ensures Find(w, o).Some? ==> Formed(Find(w, o).value)
    decreases w, 1, 0
  {
    if !Same(o, w) {
      match w
      case Scal(_) =>
      case Dict(_, keys, _) => FindFieldKeepsForm(w, |keys|, o);
      case Items(_, items) => FindItemKeepsForm(w, |items|, o);
    }
  }

  lemma {:induction false} FindFieldKeepsForm(w: Node, n: nat, o: Node)
    requires w.Dict? && n <= |w.keys| && Formed(w)
    ensures FindField(w, n, o).Some? ==> Formed(FindField(w, n, o).value)
    decreases w, 0, n
  {
    if n != 0 {
      var key := w.keys[n - 1];
      FormedPart(w, key);
      if key in w.vals {
        FindKeepsForm(w.vals[key], o);
      }
      FindFieldKeepsForm(w, n - 1, o);
    }
  }

  lemma {:induction false} FindItemKeepsForm(w: Node, n: nat, o: Node)
    requires w.Items? && n <= |w.items| && Formed(w)
    ensures FindItem(w, n, o).Some? ==> Formed(FindItem(w, n, o).value)
    decreases w, 0, n
  {
    if n != 0 {
      FormedItem(w, n - 1);
      FindKeepsForm(w.items[n - 1], o);
      FindItemKeepsForm(w, n - 1, o);
    }
  }

  lemma {:induction false} SyncKeepsForm(t: Node, w: Node)
    requires Formed(t) && Formed(w)
    ensures Formed(Sync(t, w))
    decreases t
  {
    FindKeepsForm(w, t);
    if Find(w, t).None? {
      var r := Sync(t, w);
      match t
      case Scal(_) =>
      case Dict(_, keys, vals) =>
        forall k | k in vals ensures WellFormed(Erase(Sync(vals[k], w))) {
          FormedPart(t, k);
          SyncKeepsForm(vals[k], w);
        }
        assert Erase(t).keys == Erase(r).keys && Erase(t).vals.Keys == Erase(r).vals.Keys;
        assert forall k :: k in vals ==> Erase(r).vals[k] == Erase(Sync(vals[k], w));
      case Items(_, items) =>
        forall i | 0 <= i < |items| ensures Formed(Sync(items[i], w)) {
          FormedItem(t, i);
          SyncKeepsForm(items[i], w);
        }
        assert forall i :: 0 <= i < |items| ==> Erase(r).items[i] == Erase(Sync(items[i], w));
    }
  }

  // ---------- the yes/no replacement ----------

  function NormaliseNodeField(v: Node): (r: Node)
    decreases v, 1
  {
    if v.Scal? && SpellsBool(Leaf(v.scalar)) then Scal(BoolV(v.scalar.s in YES_VALUES)) else NormaliseNode(v)
  }

  /** The replacement on a document, which keeps its objects. */
  function NormaliseNode(n: Node): (r: Node)
    ensures (n.Scal? <==> r.Scal?) && (n.Dict? <==> r.Dict?) && (n.Items? <==> r.Items?)
    decreases n, 0
  {
    match n
    case Scal(_) => n
    case Items(id, items) => Items(id, seq(|items|, i requires 0 <= i < |items| => NormaliseNode(items[i])))
    case Dict(id, keys, vals) => Dict(id, keys, map k | k in vals :: NormaliseNodeField(vals[k]))
  }

  lemma {:induction false} EraseNormalised(n: Node)
    ensures Erase(NormaliseNode(n)) == Normalise(Erase(n))
    ensures Erase(NormaliseNodeField(n)) == NormaliseField(Erase(n))
    decreases n
  {
    match n
    case Scal(_) =>
    case Items(_, items) =>
      forall i | 0 <= i < |items| ensures Erase(NormaliseNode(items[i])) == Normalise(Erase(items[i])) {
        EraseNormalised(items[i]);
      }
      assert Erase(NormaliseNode(n)).items == Normalise(Erase(n)).items;
    case Dict(_, keys, vals) =>
      forall k | k in vals ensures Erase(NormaliseNodeField(vals[k])) == NormaliseField(Erase(vals[k])) {
        EraseNormalised(vals[k]);
      }
      assert Erase(NormaliseNode(n)).vals == Normalise(Erase(n)).vals;
  }

  /** A loaded document replaced is the replaced document loaded. */
  lemma {:induction false} LabelNormalised(t: Tree, origin: Origin, path: seq<Step>)
    ensures NormaliseNode(Label(t, origin, path)) == Label(Normalise(t), origin, path)
    ensures NormaliseNodeField(Label(t, origin, path)) == Label(NormaliseField(t), origin, path)
    decreases t
  {
    match t
    case Leaf(_) =>
    case List(items) =>
      forall i | 0 <= i < |items|
        ensures NormaliseNode(Label(items[i], origin, path + [At(i)]))
            == Label(Normalise(items[i]), origin, path + [At(i)])
      {
        LabelNormalised(items[i], origin, path + [At(i)]);
      }
      assert NormaliseNode(Label(t, origin, path)).items == Label(Normalise(t), origin, path).items;
    case Obj(_, vals) =>
      forall k | k in vals
        ensures NormaliseNodeField(Label(vals[k], origin, path + [Key(k)]))
             == Label(NormaliseField(vals[k]), origin, path + [Key(k)])
      {
        LabelNormalised(vals[k], origin, path + [Key(k)]);
      }
      assert NormaliseNode(Label(t, origin, path)).vals == Label(Normalise(t), origin, path).vals;
  }

  // ---------- whose objects a document is made of ----------

  function TurnOf(id: Id): nat {
    match id
    case Loaded(origin, _) => origin.turn
    case Made(turn, _, _, _) => turn
  }

  /** What the document `y` has at a path. */
  function Place(y: Node, path: seq<Step>): Option<Node> {
    if path == [] then Some(y)
    else
      var inner, step := Place(y, path[..|path| - 1]), path[|path| - 1];
      if inner.None? then None
      else
        match step
        case Key(key) =>
          if inner.value.Dict? && key in inner.value.vals then Some(inner.value.vals[key]) else None
        case At(i) =>
          if inner.value.Items? && i < |inner.value.items| then Some(inner.value.items[i]) else None
  }

  /** Whether an object was loaded with the input document of a turn. */
  predicate OfInput(id: Id, turn: nat) {
    id.Loaded? && id.origin == Origin(turn, None)
  }

  /** What is known of the objects that were loaded with the input document of a turn. */
  datatype Look =
    | Any
    | As(input: Node)  // they look as they do in that document
    | Below            // the document itself is not among them
    | Absent           // there are none

  ghost predicate OwnObject(id: Id, n: Node, turn: nat, look: Look) {
    && TurnOf(id) == turn
    && match look
       case Any => true
       case As(input) => OfInput(id, turn) ==> Place(input, id.path) == Some(n)
       case Below => OfInput(id, turn) ==> id.path != []
       case Absent => !OfInput(id, turn)
  }

  /** Every object of `n` belongs to the turn, and those of the input document are as `look` says. */
  ghost predicate Own(n: Node, turn: nat, look: Look)
    decreases n
  {
    match n
    case Scal(_) => true
    case Dict(id, _, vals) => OwnObject(id, n, turn, look) && forall k :: k in vals ==> Own(vals[k], turn, look)
    case Items(id, items) =>
      OwnObject(id, n, turn, look) && forall i :: 0 <= i < |items| ==> Own(items[i], turn, look)
  }

  lemma {:induction false} AbsentIsOwn(n: Node, turn: nat, look: Look)
    requires Own(n, turn, Absent)
    ensures Own(n, turn, look)
    decreases n
  {
    match n
    case Scal(_) =>
    case Dict(_, _, vals) =>
      forall k | k in vals ensures Own(vals[k], turn, look) {
        AbsentIsOwn(vals[k], turn, look);
      }
    case Items(_, items) =>
      forall i | 0 <= i < |items| ensures Own(items[i], turn, look) {
        AbsentIsOwn(items[i], turn, look);
      }
  }

  /** The objects of `n` bear the names of their places. */
  ghost predicate Placed(n: Node, origin: Origin, path: seq<Step>)
    decreases n
  {
    match n
    case Scal(_) => true
    case Dict(id, _, vals) =>
      id == Loaded(origin, path) && forall k :: k in vals ==> Placed(vals[k], origin, path + [Key(k)])
    case Items(id, items) =>
      id == Loaded(origin, path) && forall i :: 0 <= i < |items| ==> Placed(items[i], origin, path + [At(i)])
  }

  lemma {:induction false} LabelPlaces(t: Tree, origin: Origin, path: seq<Step>)
    ensures Placed(Label(t, origin, path), origin, path)
    decreases t
  {
    match t
    case Leaf(_) =>
    case List(items) =>
      forall i | 0 <= i < |items| ensures Placed(Label(items[i], origin, path + [At(i)]), origin, path + [At(i)]) {
        LabelPlaces(items[i], origin, path + [At(i)]);
      }
    case Obj(_, vals) =>
      forall k | k in vals ensures Placed(Label(vals[k], origin, path + [Key(k)]), origin, path + [Key(k)]) {
        LabelPlaces(vals[k], origin, path + [Key(k)]);
      }
  }

  lemma {:induction false} NormaliseKeepsPlaces(n: Node, origin: Origin, path: seq<Step>)
    requires Placed(n, origin, path)
    ensures Placed(NormaliseNode(n), origin, path)
    decreases n
  {
    match n
    case Scal(_) =>
    case Items(_, items) =>
      forall i | 0 <= i < |items| ensures Placed(NormaliseNode(items[i]), origin, path + [At(i)]) {
        NormaliseKeepsPlaces(items[i], origin, path + [At(i)]);
      }
    case Dict(_, _, vals) =>
      forall k | k in vals ensures Placed(NormaliseNodeField(vals[k]), origin, path + [Key(k)]) {
        NormaliseKeepsPlaces(vals[k], origin, path + [Key(k)]);
      }
  }

  /** The objects of an input document look as they do there. */
  lemma {:induction false} InputIsOwn(n: Node, turn: nat, path: seq<Step>, look: Look)
    requires Placed(n, Origin(turn, None), path) && !look.Absent?
    requires look.As? ==> Place(look.input, path) == Some(n)
    requires look.Below? ==> path != []
    ensures Own(n, turn, look)
    decreases n
  {
    match n
    case Scal(_) =>
    case Items(_, items) =>
      forall i | 0 <= i < |items| ensures Own(items[i], turn, look) {
        assert (path + [At(i)])[..|path|] == path;
        InputIsOwn(items[i], turn, path + [At(i)], look);
      }
    case Dict(_, _, vals) =>
      forall k | k in vals ensures Own(vals[k], turn, look) {
        assert (path + [Key(k)])[..|path|] == path;
        InputIsOwn(vals[k], turn, path + [Key(k)], look);
      }
  }

  /** A file has none of the input document's objects. */
  lemma {:induction false} FileIsOwn(n: Node, origin: Origin, path: seq<Step>, look: Look)
    requires Placed(n, origin, path) && origin.file.Some?
    ensures Own(n, origin.turn, look)
    decreases n
  {
    match n
    case Scal(_) =>
    case Items(_, items) =>
      forall i | 0 <= i < |items| ensures Own(items[i], origin.turn, look) {
        FileIsOwn(items[i], origin, path + [At(i)], look);
      }
    case Dict(_, _, vals) =>
      forall k | k in vals ensures Own(vals[k], origin.turn, look) {
        FileIsOwn(vals[k], origin, path + [Key(k)], look);
      }
  }

  lemma {:induction false} FoundIsOwn(w: Node, o: Node, turn: nat, look: Look)
    requires Own(w, turn, look)
    ensures Find(w, o).Some? ==> Own(Find(w, o).value, turn, look)
    decreases w, 1, 0
  {
    if !Same(o, w) {
      match w
      case Scal(_) =>
      case Dict(_, keys, _) => FoundFieldIsOwn(w, |keys|, o, turn, look);
      case Items(_, items) => FoundItemIsOwn(w, |items|, o, turn, look);
    }
  }

  lemma {:induction false} FoundFieldIsOwn(w: Node, n: nat, o: Node, turn: nat, look: Look)
    requires w.Dict? && n <= |w.keys| && Own(w, turn, look)
    ensures FindField(w, n, o).Some? ==> Own(FindField(w, n, o).value, turn, look)
    decreases w, 0, n
  {
    if n != 0 {
      var key := w.keys[n - 1];
      if key in w.vals {
        FoundIsOwn(w.vals[key], o, turn, look);
      }
      FoundFieldIsOwn(w, n - 1, o, turn, look);
    }
  }

  lemma {:induction false} FoundItemIsOwn(w: Node, n: nat, o: Node, turn: nat, look: Look)
    requires w.Items? && n <= |w.items| && Own(w, turn, look)
    ensures FindItem(w, n, o).Some? ==> Own(FindItem(w, n, o).value, turn, look)
    decreases w, 0, n
  {
    if n != 0 {
      FoundIsOwn(w.items[n - 1], o, turn, look);
      FoundItemIsOwn(w, n - 1, o, turn, look);
    }
  }

  /** Nothing another turn writes shows in a document made of this turn's objects. */
  lemma {:induction false} OtherTurnsUnseen(t: Node, w: Node, mine: nat, theirs: nat)
    requires Own(t, mine, Any) && Own(w, theirs, Any) && mine != theirs
    ensures Sync(t, w) == t
    decreases t
  {
    FoundIsOwn(w, t, theirs, Any);
    match t
    case Scal(_) =>
    case Dict(_, _, vals) =>
      forall k | k in vals ensures Sync(vals[k], w) == vals[k] {
        OtherTurnsUnseen(vals[k], w, mine, theirs);
      }
      assert Sync(t, w).vals == vals;
    case Items(_, items) =>
      forall i | 0 <= i < |items| ensures Sync(items[i], w) == items[i] {
        OtherTurnsUnseen(items[i], w, mine, theirs);
      }
      assert Sync(t, w).items == items;
  }

  lemma {:induction false} SyncKeepsOwn(t: Node, w: Node, turn: nat)
    requires Own(t, turn, Any) && Own(w, turn, Any)
    ensures Own(Sync(t, w), turn, Any)
    decreases t
  {
    FoundIsOwn(w, t, turn, Any);
    match t
    case Scal(_) =>
    case Dict(_, _, vals) =>
      forall k | k in vals ensures Own(Sync(vals[k], w), turn, Any) {
        SyncKeepsOwn(vals[k], w, turn);
      }
    case Items(_, items) =>
      forall i | 0 <= i < |items| ensures Own(Sync(items[i], w), turn, Any) {
        SyncKeepsOwn(items[i], w, turn);
      }
  }

  /** An object of the input is found looking as it does there. */
  lemma FoundAsInput(t: Node, w: Node, turn: nat, path: seq<Step>, input: Node)
    requires Placed(t, Origin(turn, None), path) && Place(input, path) == Some(t)
    requires Own(w, turn, As(input))
    ensures Find(w, t).Some? ==> Find(w, t).value == t
  {
    hide Place;
    FoundIsOwn(w, t, turn, As(input));
  }

  lemma PlaceStep(y: Node, path: seq<Step>, step: Step)
    requires Place(y, path).Some?
    ensures var inner := Place(y, path).value;
            Place(y, path + [step]) == match step
              case Key(key) => if inner.Dict? && key in inner.vals then Some(inner.vals[key]) else None
              case At(i) => if inner.Items? && i < |inner.items| then Some(inner.items[i]) else None
  {
    assert (path + [step])[..|path|] == path;
  }

  /** A document in which the input's objects look as they do in the input shows it nothing new. */
  lemma {:induction false} InputUnseen(t: Node, w: Node, turn: nat, path: seq<Step>, input: Node)
    requires Placed(t, Origin(turn, None), path) && Place(input, path) == Some(t)
    requires Own(w, turn, As(input))
    ensures Sync(t, w) == t
    decreases t
  {
    hide Place, Own, Find;
    FoundAsInput(t, w, turn, path, input);
    match t
    case Scal(_) =>
    case Dict(_, _, vals) =>
      forall k | k in vals ensures Sync(vals[k], w) == vals[k] {
        PlaceStep(input, path, Key(k));
        InputUnseen(vals[k], w, turn, path + [Key(k)], input);
      }
      assert Find(w, t).None? ==> Sync(t, w).vals == vals;
    case Items(_, items) =>
      forall i | 0 <= i < |items| ensures Sync(items[i], w) == items[i] {
        PlaceStep(input, path, At(i));
        InputUnseen(items[i], w, turn, path + [At(i)], input);
      }
      assert Find(w, t).None? ==> Sync(t, w).items == items;
  }
}
