/** The merge on documents with identities: what it leaves in the base, and whose objects those are. */
module SharedMerge {
  import opened Results
  import opened Trees
  import opened Merge
  import opened MergeFacts
  import opened SharedNodes

  type Grown = Result<Node, MergeError>

  /** One merge of a turn; it names the lists it makes. */
  datatype Call = Call(turn: nat, merge: nat)

  function PutNode(o: Node, key: string, value: Node): Node
    requires o.Dict?
  {
    Dict(o.id, if key in o.vals then o.keys else o.keys + [key], o.vals[key := value])
  }

  /** The base after the merge; whatever the extension alone has joins it as the object it is. */
  function OverDict(x: Node, y: Node, call: Call): (r: Grown)
    requires x.Dict? && y.Dict? && Formed(y)
    ensures r.Success? ==> r.value.Dict? && r.value.id == x.id
    decreases y, 2, 0
  {
    OverFields(x, y, |y.keys|, call)
  }

  function OverFields(x: Node, y: Node, n: nat, call: Call): (r: Grown)
    requires x.Dict? && y.Dict? && Formed(y) && n <= |y.keys|
    ensures r.Success? ==> r.value.Dict? && r.value.id == x.id
    decreases y, 1, n
  {
    if n == 0 then Success(x)
    else
      var done :- OverFields(x, y, n - 1, call);
      var key := y.keys[n - 1];
      FormedPart(y, key);
      OverField(done, key, y.vals[key], call)
  }

  function OverField(done: Node, key: string, value: Node, call: Call): (r: Grown)
    requires done.Dict? && Formed(value)
    ensures r.Success? ==> r.value.Dict? && r.value.id == done.id
    decreases value, 4, 0
  {
    if key in done.vals then
      var merged :- OverValue(done.id, key, done.vals[key], value, call);
      Success(PutNode(done, key, merged))
    else Success(PutNode(done, key, value))
  }

  function OverValue(owner: Id, key: string, x: Node, y: Node, call: Call): Grown
    requires Formed(y)
    decreases y, 3, 0
  {
    if x.Dict? && y.Dict? then OverDict(x, y, call)
    else if x.Items? && y.Items? then OverList(owner, key, x, y, call)
    else if x.Scal? && y.Scal? && SameType(x.scalar, y.scalar) then Success(y)
    else Failure(TypeMismatch(key))
  }

  /** A list is merged in place, replaced by a new list of the named items, or by the extension's list itself. */
  function OverList(owner: Id, key: string, x: Node, y: Node, call: Call): (r: Grown)
    requires x.Items? && y.Items? && Formed(y)
    ensures r.Success? ==> r.value.Items?
    decreases y, 2, 0
  {
    var xs, ys := EraseAll(x.items), EraseAll(y.items);
    if IsNamedList(xs) && IsNamedList(ys) then
      var merge :- MergeFlag(key, ys);
      if !UniqueNames(xs) then Failure(DuplicateNames(key, "default"))
      else if !UniqueNames(ys) then Failure(DuplicateNames(key, "input"))
      else if merge then
        var matched :- OverMatched(x.items, y, |x.items|, call);
        var extended :- OverNew(matched, y.items, |y.items|);
        Success(Items(x.id, extended))
      else Success(Items(Made(call.turn, call.merge, owner, key), NamedNodes(y.items)))
    else Success(y)
  }

  function OverMatched(base: seq<Node>, y: Node, n: nat, call: Call): (r: Result<seq<Node>, MergeError>)
    requires y.Items? && Formed(y) && n <= |base|
    ensures r.Success? ==> |r.value| == |base|
    decreases y, 1, n
  {
    if n == 0 then Success(base)
    else
      var done :- OverMatched(base, y, n - 1, call);
      var merged :- OverItem(base[n - 1], y, call);
      Success(done[n - 1 := merged])
  }

  function OverItem(item: Node, y: Node, call: Call): Grown
    requires y.Items? && Formed(y)
    decreases y, 0, 0
  {
    var t, ys := Erase(item), EraseAll(y.items);
    if !AnyNamed(ys) then Success(item)
    else if !HasAttr(t, NAME) then Failure(MissingName)
    else
      match IndexOfName(ys, NameOf(t))
      case None => Success(item)
      case Some(j) =>
        FormedItem(y, j);
        assert y.items[j] in y.items;
        OverDict(item, y.items[j], call)
  }

  function OverNew(base: seq<Node>, ext: seq<Node>, n: nat): Result<seq<Node>, MergeError>
    requires IsNamedList(EraseAll(ext)) && n <= |ext|
    decreases n
  {
    if n == 0 then Success(base)
    else
      var done :- OverNew(base, ext, n - 1);
      assert EraseAll(ext)[n - 1] == Erase(ext[n - 1]);
      AddNode(done, ext[n - 1])
  }

  function AddNode(done: seq<Node>, item: Node): Result<seq<Node>, MergeError>
    requires HasAttr(Erase(item), NAME) || HasAttr(Erase(item), MARKER)
  {
    var before, t := EraseAll(done), Erase(item);
    if HasAttr(t, MARKER) then Success(done)
    else if exists i :: 0 <= i < |before| && !HasAttr(before[i], NAME) then Failure(MissingName)
    else if IndexOfName(before, NameOf(t)).Some? then Success(done)
    else Success(done + [item])
  }

  function NamedNodes(items: seq<Node>): (r: seq<Node>)
    ensures forall i :: 0 <= i < |r| ==> r[i] in items
  {
    if items == [] then []
    else if HasAttr(Erase(items[0]), NAME) then [items[0]] + NamedNodes(items[1..])
    else NamedNodes(items[1..])
  }

  // ---------- what the merge says ----------

  function EraseGrown(r: Grown): Merged {
    match r
    case Success(n) => Success(Erase(n))
    case Failure(e) => Failure(e)
  }

  function EraseItems(r: Result<seq<Node>, MergeError>): Result<seq<Tree>, MergeError> {
    match r
    case Success(ns) => Success(EraseAll(ns))
    case Failure(e) => Failure(e)
  }

  lemma ErasePut(o: Node, key: string, value: Node)
    requires o.Dict?
    ensures Erase(PutNode(o, key, value)) == Put(Erase(o), key, Erase(value))
  {
    assert Erase(PutNode(o, key, value)).vals == Put(Erase(o), key, Erase(value)).vals;
  }

  lemma EraseCons(n: Node, rest: seq<Node>)
    ensures EraseAll([n] + rest) == [Erase(n)] + EraseAll(rest)
  {
    hide Erase;
  }

  lemma {:induction false} EraseNamed(items: seq<Node>)
    ensures EraseAll(NamedNodes(items)) == NamedOnly(EraseAll(items))
  {
    hide Erase, HasAttr;
    if items != [] {
      EraseNamed(items[1..]);
      assert items == [items[0]] + items[1..];
      EraseCons(items[0], items[1..]);
      EraseCons(items[0], NamedNodes(items[1..]));
    }
  }

  lemma {:induction false} EraseNew(base: seq<Node>, ext: seq<Node>, n: nat)
    requires IsNamedList(EraseAll(ext)) && n <= |ext|
    ensures EraseItems(OverNew(base, ext, n)) == AppendNew(EraseAll(base), EraseAll(ext), n)
  {
    hide AppendItem, AddNode;
    if n != 0 {
      EraseNew(base, ext, n - 1);
      assert EraseAll(ext)[n - 1] == Erase(ext[n - 1]);
      var r := OverNew(base, ext, n - 1);
      if r.Success? {
        EraseAdded(r.value, ext[n - 1]);
      }
    }
  }

  lemma EraseAdded(done: seq<Node>, item: Node)
    requires HasAttr(Erase(item), NAME) || HasAttr(Erase(item), MARKER)
    ensures EraseItems(AddNode(done, item)) == AppendItem(EraseAll(done), Erase(item))
  {
    assert EraseAll(done + [item]) == EraseAll(done) + [Erase(item)];
  }

  /** On what the documents say it is the merge of values. */
  lemma {:induction false} OverIsMerge(x: Node, y: Node, call: Call)
    requires x.Dict? && y.Dict? && Formed(y)
    ensures EraseGrown(OverDict(x, y, call)) == MergeObj(Erase(x), Erase(y))
    decreases y, 2, 0
  {
    OverFieldsIsMerge(x, y, |y.keys|, call);
  }

  lemma {:induction false} OverFieldsIsMerge(x: Node, y: Node, n: nat, call: Call)
    requires x.Dict? && y.Dict? && Formed(y) && n <= |y.keys|
    ensures EraseGrown(OverFields(x, y, n, call)) == MergeFields(Erase(x), Erase(y), n)
    decreases y, 1, n
  {
    if n != 0 {
      OverFieldsIsMerge(x, y, n - 1, call);
      var done := OverFields(x, y, n - 1, call);
      if done.Success? {
        var key := y.keys[n - 1];
        FormedPart(y, key);
        OverFieldIsMerge(done.value, key, y.vals[key], call);
      }
    }
  }

  lemma {:induction false} OverFieldIsMerge(done: Node, key: string, value: Node, call: Call)
    requires done.Dict? && Formed(value)
    ensures EraseGrown(OverField(done, key, value, call)) == MergeField(Erase(done), key, Erase(value))
    decreases value, 4, 0
  {
    ErasePut(done, key, value);
    if key in done.vals {
      OverValueIsMerge(done.id, key, done.vals[key], value, call);
      var merged := OverValue(done.id, key, done.vals[key], value, call);
      if merged.Success? {
        ErasePut(done, key, merged.value);
      }
    }
  }

  lemma {:induction false} OverValueIsMerge(owner: Id, key: string, x: Node, y: Node, call: Call)
    requires Formed(y)
    ensures EraseGrown(OverValue(owner, key, x, y, call)) == MergeValue(key, Erase(x), Erase(y))
    decreases y, 3, 0
  {
    if x.Dict? && y.Dict? {
      OverIsMerge(x, y, call);
    } else if x.Items? && y.Items? {
      OverListIsMerge(owner, key, x, y, call);
    }
  }

  lemma {:induction false} OverListIsMerge(owner: Id, key: string, x: Node, y: Node, call: Call)
    requires x.Items? && y.Items? && Formed(y)
    ensures EraseGrown(OverList(owner, key, x, y, call)) == MergeList(key, Erase(x), Erase(y))
    decreases y, 2, 0
  {
    hide MergeFlag, UniqueNames, AppendNew, MergeMatched, OverNew, OverMatched, NamedOnly, NamedNodes, WellFormed;
    var xs, ys := EraseAll(x.items), EraseAll(y.items);
    assert Erase(x).items == xs && Erase(y).items == ys;
    EraseNamed(y.items);
    if IsNamedList(xs) && IsNamedList(ys) {
      OverMatchedIsMerge(x.items, y, |x.items|, call);
      var matched := OverMatched(x.items, y, |x.items|, call);
      if matched.Success? {
        EraseNew(matched.value, y.items, |y.items|);
      }
    }
  }

  lemma {:induction false} OverMatchedIsMerge(base: seq<Node>, y: Node, n: nat, call: Call)
    requires y.Items? && Formed(y) && n <= |base|
    ensures EraseItems(OverMatched(base, y, n, call)) == MergeMatched(EraseAll(base), Erase(y), n)
    decreases y, 1, n
  {
    if n != 0 {
      OverMatchedIsMerge(base, y, n - 1, call);
      OverItemIsMerge(base[n - 1], y, call);
      var done, merged := OverMatched(base, y, n - 1, call), OverItem(base[n - 1], y, call);
      if done.Success? && merged.Success? {
        assert EraseAll(done.value[n - 1 := merged.value]) == EraseAll(done.value)[n - 1 := Erase(merged.value)];
      }
    }
  }

  lemma {:induction false} OverItemIsMerge(item: Node, y: Node, call: Call)
    requires y.Items? && Formed(y)
    ensures EraseGrown(OverItem(item, y, call)) == MergeItem(Erase(item), Erase(y))
    decreases y, 0, 0
  {
    var t, ys := Erase(item), EraseAll(y.items);
    assert Erase(y).items == ys;
    if AnyNamed(ys) && HasAttr(t, NAME) {
      var at := IndexOfName(ys, NameOf(t));
      if at.Some? {
        FormedItem(y, at.value);
        assert y.items[at.value] in y.items;
        OverIsMerge(item, y.items[at.value], call);
      }
    }
  }

  lemma OverKeepsForm(x: Node, y: Node, call: Call)
    requires x.Dict? && y.Dict? && Formed(x) && Formed(y)
    ensures OverDict(x, y, call).Success? ==> Formed(OverDict(x, y, call).value)
  {
    OverIsMerge(x, y, call);
    if OverDict(x, y, call).Success? {
      MergeKeepsWellFormed("", Erase(x), Erase(y));
    }
  }

  // ---------- whose objects the merge leaves ----------

  /** The objects of `n` may be written: where the input's objects are to keep their look, `n` has none of them. */
  ghost predicate Writable(n: Node, turn: nat, look: Look) {
    Own(n, turn, look) && (look.As? ==> Own(n, turn, Absent))
  }

  ghost predicate AllOwn(ns: seq<Node>, turn: nat, look: Look) {
    forall i :: 0 <= i < |ns| ==> Own(ns[i], turn, look)
  }

  ghost predicate Parts(o: Node, turn: nat, look: Look)
    requires o.Dict?
  {
    forall k :: k in o.vals ==> Own(o.vals[k], turn, look)
  }

  /** A dictionary that may be written, part way through a merge. */
  ghost predicate OwnParts(o: Node, turn: nat, look: Look)
    requires o.Dict?
  {
    OwnObject(o.id, o, turn, if look.As? then Absent else look) && Parts(o, turn, look)
  }

  /** The base made of the turn's objects stays so; the input's objects in it look as they do in the input. */
  lemma {:induction false} OverOwn(x: Node, y: Node, call: Call, look: Look)
    requires x.Dict? && y.Dict? && Formed(y)
    requires Writable(x, call.turn, look) && Parts(y, call.turn, look)
    ensures OverDict(x, y, call).Success? ==> Own(OverDict(x, y, call).value, call.turn, look)
    decreases y, 2, 0
  {
    OverFieldsOwn(x, y, |y.keys|, call, look);
  }

  lemma {:induction false} OverFieldsOwn(x: Node, y: Node, n: nat, call: Call, look: Look)
    requires x.Dict? && y.Dict? && Formed(y) && n <= |y.keys|
    requires Writable(x, call.turn, look) && Parts(y, call.turn, look)
    ensures OverFields(x, y, n, call).Success? ==> OwnParts(OverFields(x, y, n, call).value, call.turn, look)
    ensures OverFields(x, y, n, call).Success? ==> Pending(x, OverFields(x, y, n, call).value, y.keys[..n])
    decreases y, 1, n
  {
    if n != 0 {
      OverFieldsOwn(x, y, n - 1, call, look);
      var done := OverFields(x, y, n - 1, call);
      if done.Success? {
        var key := y.keys[n - 1];
        FormedPart(y, key);
        FreshKey(y, n - 1);
        OverFieldOwn(x, done.value, key, y.vals[key], call, look);
        assert y.keys[..n] == y.keys[..n - 1] + [key];
      }
    }
  }

  /** Keys not in `ks` are as they were. */
  ghost predicate Pending(x: Node, done: Node, ks: seq<string>)
    requires x.Dict? && done.Dict?
  {
    forall k :: k !in ks && k in done.vals ==> k in x.vals && done.vals[k] == x.vals[k]
  }

  lemma FreshKey(y: Node, i: nat)
    requires y.Dict? && Formed(y) && i < |y.keys|
    ensures y.keys[i] !in y.keys[..i]
  {
    assert Distinct(Erase(y).keys);
  }

  lemma {:induction false} OverFieldOwn(x: Node, done: Node, key: string, value: Node, call: Call, look: Look)
    requires x.Dict? && done.Dict? && Formed(value) && OwnParts(done, call.turn, look)
    requires Writable(x, call.turn, look) && Own(value, call.turn, look)
    requires key in done.vals ==> key in x.vals && done.vals[key] == x.vals[key]
    ensures var r := OverField(done, key, value, call);
            r.Success? ==> OwnParts(r.value, call.turn, look)
                           && forall k :: k != key && k in r.value.vals ==>
                                k in done.vals && r.value.vals[k] == done.vals[k]
    decreases value, 4, 0
  {
    if key in done.vals {
      OverValueOwn(done.id, key, done.vals[key], value, call, look);
    }
  }

  lemma {:induction false} OverValueOwn(owner: Id, key: string, x: Node, y: Node, call: Call, look: Look)
    requires Formed(y) && Writable(x, call.turn, look) && Own(y, call.turn, look)
    ensures OverValue(owner, key, x, y, call).Success? ==> Own(OverValue(owner, key, x, y, call).value, call.turn, look)
    decreases y, 3, 0
  {
    if x.Dict? && y.Dict? {
      OverOwn(x, y, call, look);
    } else if x.Items? && y.Items? {
      OverListOwn(owner, key, x, y, call, look);
    }
  }

  lemma {:induction false} OverListOwn(owner: Id, key: string, x: Node, y: Node, call: Call, look: Look)
    requires x.Items? && y.Items? && Formed(y)
    requires Writable(x, call.turn, look) && Own(y, call.turn, look)
    ensures OverList(owner, key, x, y, call).Success? ==> Own(OverList(owner, key, x, y, call).value, call.turn, look)
    decreases y, 2, 0
  {
    hide MergeFlag, UniqueNames, OverNew, OverMatched, WellFormed, NameOf, HasAttr, Erase;
    OverMatchedOwn(x.items, y, |x.items|, call, look);
    var matched := OverMatched(x.items, y, |x.items|, call);
    if matched.Success? && IsNamedList(EraseAll(y.items)) {
      OverNewOwn(matched.value, y.items, |y.items|, call.turn, look);
    }
    forall i | 0 <= i < |NamedNodes(y.items)| ensures Own(NamedNodes(y.items)[i], call.turn, look) {
      assert NamedNodes(y.items)[i] in y.items;
    }
  }

  lemma {:induction false} OverMatchedOwn(base: seq<Node>, y: Node, n: nat, call: Call, look: Look)
    requires y.Items? && Formed(y) && n <= |base| && Own(y, call.turn, look)
    requires forall i :: 0 <= i < |base| ==> Writable(base[i], call.turn, look)
    ensures OverMatched(base, y, n, call).Success? ==> AllOwn(OverMatched(base, y, n, call).value, call.turn, look)
    decreases y, 1, n
  {
    if n != 0 {
      OverMatchedOwn(base, y, n - 1, call, look);
      OverItemOwn(base[n - 1], y, call, look);
    }
  }

  lemma {:induction false} OverItemOwn(item: Node, y: Node, call: Call, look: Look)
    requires y.Items? && Formed(y) && Writable(item, call.turn, look) && Own(y, call.turn, look)
    ensures OverItem(item, y, call).Success? ==> Own(OverItem(item, y, call).value, call.turn, look)
    decreases y, 0, 0
  {
    var t, ys := Erase(item), EraseAll(y.items);
    if AnyNamed(ys) && HasAttr(t, NAME) {
      var at := IndexOfName(ys, NameOf(t));
      if at.Some? {
        FormedItem(y, at.value);
        assert y.items[at.value] in y.items;
        OverOwn(item, y.items[at.value], call, look);
      }
    }
  }

  lemma {:induction false} OverNewOwn(base: seq<Node>, ext: seq<Node>, n: nat, turn: nat, look: Look)
    requires IsNamedList(EraseAll(ext)) && n <= |ext|
    requires AllOwn(base, turn, look) && AllOwn(ext, turn, look)
    ensures OverNew(base, ext, n).Success? ==> AllOwn(OverNew(base, ext, n).value, turn, look)
    decreases n
  {
    if n != 0 {
      OverNewOwn(base, ext, n - 1, turn, look);
    }
  }
}
