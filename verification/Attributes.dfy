// The attribute lists of dsched_attr.c: one list of keyed, typed items that behaves like a stack
// per key.
module Attributes {
  import opened Search
  import opened Sums

  type Key = nat

  // The data types that items may have. The copies of PMIX_DATA_ARRAY are not part of this model;
  // Other stands for the types that loading does not know.
  datatype Type =
    | Bool | Byte | Size | Pid | Int | Int8 | Int16 | Int32 | Int64
    | Uint | Uint8 | Uint16 | Uint32 | Uint64 | Float | ProcRank
    | String | ByteObject | Timeval | Pointer | ProcNspace | Proc | Envar
    | Other(id: nat)

  // What an item holds. None stands for a NULL pointer inside the item.
  datatype Value =
    | Flag(flag: bool)
    | Scalar(bits: nat)
    | Text(text: Option<string>)
    | Blob(bytes: Option<seq<bv8>>)
    | Time(sec: int, usec: int)
    | Address(address: nat)
    | Nspace(nspace: Option<string>)
    | Process(process: Option<(string, nat)>)
    | Variable(name: Option<string>, value: Option<string>, separator: char)
    | Zeroed

  datatype Item = Item(key: Key, kind: Type, value: Value)

  datatype Status = Success | TypeMismatch | NotSupported | BadParam

  // The form that values of a type have.
  predicate Fits(kind: Type, v: Value) {
    match kind
    case Bool => v.Flag?
    case String => v.Text?
    case ByteObject => v.Blob?
    case Timeval => v.Time?
    case Pointer => v.Address?
    case ProcNspace => v.Nspace?
    case Proc => v.Process?
    case Envar => v.Variable?
    case Other(_) => v.Zeroed?
    case _ => v.Scalar?
  }

  // An argument passed by address: nothing, or the value at that address. A string, a namespace or
  // a process that is passed is there, and the address passed as a PMIX_POINTER is not NULL.
  predicate Argument(kind: Type, data: Option<Value>) {
    data.Some? ==>
      && (!kind.Other? ==> Fits(kind, data.value))
      && (data.value.Text? ==> data.value.text.Some?)
      && (data.value.Nspace? ==> data.value.nspace.Some?)
      && (data.value.Process? ==> data.value.process.Some?)
      && (data.value.Address? ==> data.value.address != 0)
  }

  // ---- one item --------------------------------------------------------------------------------

  // The item after memset.
  function Zero(kind: Type): (v: Value)
    ensures Fits(kind, v)
  {
    match kind
    case Bool => Flag(false)
    case String => Text(None)
    case ByteObject => Blob(None)
    case Timeval => Time(0, 0)
    case Pointer => Address(0)
    case ProcNspace => Nspace(None)
    case Proc => Process(None)
    case Envar => Variable(None, None, '\0')
    case Other(_) => Zeroed
    case _ => Scalar(0)
  }

  // An empty byte object is kept as NULL.
  function Normal(v: Value): Value {
    if v.Blob? && v.bytes == Some([]) then Blob(None) else v
  }

  // dsched_attr_load into an item that is new or of the same type: the value that it then holds,
  // or None for DSCHED_ERR_NOT_SUPPORTED.
  function Load(kind: Type, data: Option<Value>): (r: Option<Value>)
    requires Argument(kind, data)
    ensures r.Some? ==> Fits(kind, r.value) && Normal(r.value) == r.value
  {
    match data
    case None => Some(if kind.Bool? then Flag(true) else Zero(kind))
    case Some(v) => if kind.Other? then None else Some(Normal(v))
  }

  // Storage for an answer: no place at all, a place for a pointer, or also a place for a value.
  datatype Storage = NoPlace | PointerOnly | PointerAndValue

  // What dsched_attr_unload does. Copying out of a process that is NULL has no defined outcome.
  datatype Answer = Copied(value: Value) | Refused(status: Status) | Undefined

  // The types that unloading allocates storage for.
  const POINTERS: seq<Type> := [String, ByteObject, Pointer, ProcNspace, Proc, Envar]

  function Unload(held: Type, v: Value, place: Storage, kind: Type): Answer
    requires Fits(held, v)
  {
    if kind != held then Refused(TypeMismatch)
    else if place.NoPlace? then Refused(BadParam)
    else if kind !in POINTERS && place.PointerOnly? then Refused(BadParam)
    else if kind.Other? then Refused(NotSupported)
    else if v == Nspace(None) || v == Process(None) then Undefined
    else Copied(Normal(v))
  }

  method CanAllocate(kind: Type) returns (found: bool)
    ensures found <==> kind in POINTERS
  {
    for n := 0 to |POINTERS|
      invariant kind !in POINTERS[..n]
    {
      if kind == POINTERS[n] {
        return true;
      }
    }
    return false;
  }

  // The checks come in this order: the type, the place, the storage, and whether the type is known.
  method UnloadValue(held: Type, v: Value, place: Storage, kind: Type) returns (answer: Answer)
    requires Fits(held, v)
    ensures answer == Unload(held, v, place, kind)
    ensures answer == Refused(TypeMismatch) <==> kind != held
    ensures answer == Refused(BadParam) <==>
      && kind == held
      && (place.NoPlace? || (place.PointerOnly? && !v.Text? && !v.Blob? && !v.Address? && !v.Nspace? && !v.Process?
                             && !v.Variable?))
    ensures answer == Refused(NotSupported) <==> kind == held && kind.Other? && place.PointerAndValue?
    ensures answer == Undefined <==> kind == held && !place.NoPlace? && (v == Nspace(None) || v == Process(None))
    ensures !answer.Refused? && !answer.Undefined? ==>
      answer == Copied(if v == Blob(Some([])) then Blob(None) else v)
  {
    if kind != held {
      return Refused(TypeMismatch);
    }
    if place.NoPlace? {
      return Refused(BadParam);
    }
    var found := CanAllocate(kind);
    if !found && place.PointerOnly? {
      return Refused(BadParam);
    }
    match kind
    case Other(_) => answer := Refused(NotSupported);
    case ProcNspace => answer := if v.nspace.None? then Undefined else Copied(v);
    case Proc => answer := if v.process.None? then Undefined else Copied(v);
    case ByteObject => answer := Copied(if v.bytes.Some? && v.bytes.value != [] then v else Blob(None));
    case _ => answer := Copied(v);
  }

  // ---- the list --------------------------------------------------------------------------------

  // The position of the first item with the key, or the length of the list.
  function First(items: seq<Item>, key: Key): (i: nat)
    ensures i <= |items| && (i < |items| ==> items[i].key == key)
    ensures forall j :: 0 <= j < i ==> items[j].key != key
  {
    FirstWhere(items, (i: Item) => i.key == key)
  }

  predicate WellTyped(items: seq<Item>) {
    forall i :: 0 <= i < |items| ==> Fits(items[i].kind, items[i].value)
  }

  datatype Op =
    | Get(key: Key, place: Storage, kind: Type)
    | Set(key: Key, data: Option<Value>, kind: Type)
    | Prepend(key: Key, data: Option<Value>, kind: Type)
    | Remove(key: Key)

  predicate Callable(op: Op) {
    (op.Set? || op.Prepend?) ==> Argument(op.kind, op.data)
  }

  // What the caller of an operation sees. A lookup says whether the key was found; its answer is
  // there if storage for one was passed.
  datatype Seen = Looked(found: bool, answer: Option<Answer>) | Did(status: Status)

  // What an operation does to the list.
  function OnList(items: seq<Item>, op: Op): (r: (seq<Item>, Seen))
    requires WellTyped(items) && Callable(op)
    ensures WellTyped(r.0)
  {
    var i := First(items, op.key);
    match op
    case Get(_, place, kind) =>
      (items,
       if i == |items| || items[i].kind != kind then Looked(false, None)
       else if place.NoPlace? then Looked(true, None)
       else Looked(true, Some(Unload(kind, items[i].value, place, kind))))
    case Set(key, data, kind) =>
      var loaded := Load(kind, data);
      if i < |items| && items[i].kind != kind then (items, Did(TypeMismatch))
      else if i < |items| && data == Some(Flag(false)) && kind.Bool? then (items[..i] + items[i + 1..], Did(Success))
      else if loaded.None? then (items, Did(NotSupported))
      else if i < |items| then (items[i := items[i].(value := loaded.value)], Did(Success))
      else (items + [Item(key, kind, loaded.value)], Did(Success))
    case Prepend(key, data, kind) =>
      var loaded := Load(kind, data);
      if loaded.None? then (items, Did(NotSupported))
      else ([Item(key, kind, loaded.value)] + items, Did(Success))
    case Remove(key) =>
      (if i == |items| then items else items[..i] + items[i + 1..], Did(Success))
  }

  // Item i is the first one with the key.
  predicate IsFirst(items: seq<Item>, i: int, key: Key) {
    0 <= i < |items| && items[i].key == key && forall j :: 0 <= j < i ==> items[j].key != key
  }

  class AttributeList {
    var items: seq<Item>

    constructor ()
      ensures items == []
    {
      items := [];
    }

    // dsched_get_attribute
    method GetAttribute(key: Key, place: Storage, kind: Type) returns (seen: Seen)
      requires WellTyped(items)
      ensures seen == OnList(items, Get(key, place, kind)).1
      ensures seen.Looked?
      ensures seen.found <==> exists i :: IsFirst(items, i, key) && items[i].kind == kind
      ensures seen.answer.Some? <==> seen.found && place != NoPlace
    {
      var i := 0;
      while i < |items|
        invariant 0 <= i <= First(items, key)
      {
        if items[i].key == key {
          if items[i].kind != kind {
            return Looked(false, None);
          }
          if place != NoPlace {
            var answer := UnloadValue(items[i].kind, items[i].value, place, kind);
            return Looked(true, Some(answer));
          }
          return Looked(true, None);
        }
        i := i + 1;
      }
      return Looked(false, None);
    }

    // dsched_set_attribute
    method SetAttribute(key: Key, data: Option<Value>, kind: Type) returns (seen: Seen)
      requires WellTyped(items) && Argument(kind, data)
      modifies this
      ensures (items, seen) == OnList(old(items), Set(key, data, kind))
      ensures seen == Did(TypeMismatch) <==> exists i :: IsFirst(old(items), i, key) && old(items)[i].kind != kind
      ensures seen == Did(NotSupported) <==> seen != Did(TypeMismatch) && kind.Other? && data.Some?
      ensures seen == Did(Success) || items == old(items)
    {
      var i := 0;
      while i < |items|
        invariant 0 <= i <= First(items, key) && items == old(items)
      {
        if items[i].key == key {
          if items[i].kind != kind {
            return Did(TypeMismatch);
          }
          if kind.Bool? {
            var flag := if data.None? then true else data.value.flag;
            if !flag {
              items := items[..i] + items[i + 1..];
              return Did(Success);
            }
          }
          var loaded := Load(kind, data);
          if loaded.None? {
            return Did(NotSupported);
          }
          items := items[i := items[i].(value := loaded.value)];
          return Did(Success);
        }
        i := i + 1;
      }
      var loaded := Load(kind, data);
      if loaded.None? {
        return Did(NotSupported);
      }
      items := items + [Item(key, kind, loaded.value)];
      return Did(Success);
    }

    // dsched_prepend_attribute
    method PrependAttribute(key: Key, data: Option<Value>, kind: Type) returns (seen: Seen)
      requires WellTyped(items) && Argument(kind, data)
      modifies this
      ensures (items, seen) == OnList(old(items), Prepend(key, data, kind))
      ensures seen == Did(if kind.Other? && data.Some? then NotSupported else Success)
      ensures if seen == Did(Success)
              then |items| == |old(items)| + 1 && items[0].key == key && items[0].kind == kind
                   && items[1..] == old(items)
              else items == old(items)
    {
      var loaded := Load(kind, data);
      if loaded.None? {
        return Did(NotSupported);
      }
      items := [Item(key, kind, loaded.value)] + items;
      return Did(Success);
    }

    // dsched_remove_attribute
    method RemoveAttribute(key: Key)
      requires WellTyped(items)
      modifies this
      ensures items == OnList(old(items), Remove(key)).0
      ensures if forall j :: 0 <= j < |old(items)| ==> old(items)[j].key != key then items == old(items)
              else exists i :: IsFirst(old(items), i, key) && items == old(items)[..i] + old(items)[i + 1..]
    {
      var i := 0;
      while i < |items|
        invariant 0 <= i <= First(items, key) && items == old(items)
      {
        if items[i].key == key {
          items := items[..i] + items[i + 1..];
          return;
        }
        i := i + 1;
      }
    }
  }

  // ---- a stack per key -------------------------------------------------------------------------

  datatype Entry = Entry(kind: Type, value: Value)

  // The entries of a key, the one that is found first on top.
  function Stack(items: seq<Item>, key: Key): seq<Entry> {
    if items == [] then []
    else if items[0].key == key then [Entry(items[0].kind, items[0].value)] + Stack(items[1..], key)
    else Stack(items[1..], key)
  }

  predicate TypedStack(stack: seq<Entry>) {
    forall i :: 0 <= i < |stack| ==> Fits(stack[i].kind, stack[i].value)
  }

  // What an operation on a key does to the stack of that key.
  function OnStack(stack: seq<Entry>, op: Op): (r: (seq<Entry>, Seen))
    requires TypedStack(stack) && Callable(op)
    ensures TypedStack(r.0)
  {
    match op
    case Get(_, place, kind) => (stack, Peek(stack, place, kind))
    case Set(_, data, kind) =>
      if stack != [] && stack[0].kind != kind then (stack, Did(TypeMismatch))
      else if stack != [] && kind.Bool? && data == Some(Flag(false)) then (stack[1..], Did(Success))
      else Push(if stack == [] then [] else stack[1..], stack, data, kind)
    case Prepend(_, data, kind) => Push(stack, stack, data, kind)
    case Remove(_) => (if stack == [] then [] else stack[1..], Did(Success))
  }

  // A loaded value goes on top of below; if it cannot be loaded, the stack stays as it was.
  function Push(below: seq<Entry>, was: seq<Entry>, data: Option<Value>, kind: Type): (seq<Entry>, Seen)
    requires Argument(kind, data)
  {
    match Load(kind, data)
    case None => (was, Did(NotSupported))
    case Some(v) => ([Entry(kind, v)] + below, Did(Success))
  }

  function Peek(stack: seq<Entry>, place: Storage, kind: Type): Seen
    requires TypedStack(stack)
  {
    if stack == [] || stack[0].kind != kind then Looked(false, None)
    else if place.NoPlace? then Looked(true, None)
    else Looked(true, Some(Unload(kind, stack[0].value, place, kind)))
  }

  lemma {:induction false} StackConcat(s: seq<Item>, t: seq<Item>, key: Key)
    ensures Stack(s + t, key) == Stack(s, key) + Stack(t, key)
  {
    if s == [] {
      assert s + t == t;
    } else {
      StackConcat(s[1..], t, key);
      assert (s + t)[1..] == s[1..] + t;
    }
  }

  lemma {:induction false} NoEntry(items: seq<Item>, key: Key)
    requires forall j :: 0 <= j < |items| ==> items[j].key != key
    ensures Stack(items, key) == []
  {
    if items != [] {
      NoEntry(items[1..], key);
    }
  }

  // The item at i contributes one entry to the stack of its key and none to the others.
  lemma StackAt(items: seq<Item>, i: nat, key: Key)
    requires i < |items|
    ensures Stack(items, key)
         == Stack(items[..i], key)
          + (if items[i].key == key then [Entry(items[i].kind, items[i].value)] else [])
          + Stack(items[i + 1..], key)
  {
    assert items == items[..i] + items[i..];
    StackConcat(items[..i], items[i..], key);
    assert items[i..][1..] == items[i + 1..];
  }

  lemma {:induction false} StackTyped(items: seq<Item>, key: Key)
    requires WellTyped(items)
    ensures TypedStack(Stack(items, key))
  {
    if items != [] {
      assert forall i :: 0 <= i < |items[1..]| ==> items[1..][i] == items[i + 1];
      StackTyped(items[1..], key);
    }
  }

  // The first item of a key is the top of its stack.
  lemma FirstIsTop(items: seq<Item>, key: Key)
    ensures var i := First(items, key);
            && Stack(items[..i], key) == []
            && (i < |items| ==>
                  Stack(items, key) == [Entry(items[i].kind, items[i].value)] + Stack(items[i + 1..], key))
            && (i == |items| ==> Stack(items, key) == [])
  {
    var i := First(items, key);
    NoEntry(items[..i], key);
    if i < |items| {
      StackAt(items, i, key);
    } else {
      assert items[..i] == items;
    }
  }

  // Taking out the item at i pops the stack of its key, if it was the first of that key.
  lemma StackWithout(items: seq<Item>, i: nat, key: Key)
    requires i < |items|
    ensures Stack(items[..i] + items[i + 1..], key) == Stack(items[..i], key) + Stack(items[i + 1..], key)
  {
    StackConcat(items[..i], items[i + 1..], key);
  }

  lemma StackReplaced(items: seq<Item>, i: nat, v: Value, key: Key)
    requires i < |items|
    ensures Stack(items[i := items[i].(value := v)], key)
         == Stack(items[..i], key)
          + (if items[i].key == key then [Entry(items[i].kind, v)] else [])
          + Stack(items[i + 1..], key)
  {
    var after := items[i := items[i].(value := v)];
    StackAt(after, i, key);
    assert after[..i] == items[..i] && after[i + 1..] == items[i + 1..];
  }

  lemma GetOnStack(items: seq<Item>, op: Op)
    requires WellTyped(items) && op.Get? && TypedStack(Stack(items, op.key))
    ensures OnList(items, op).1 == OnStack(Stack(items, op.key), op).1
  {
    FirstIsTop(items, op.key);
  }

  lemma PrependOnStack(items: seq<Item>, op: Op, key: Key)
    requires WellTyped(items) && op.Prepend? && Callable(op) && TypedStack(Stack(items, key))
    ensures Stack(OnList(items, op).0, key)
         == if key == op.key then OnStack(Stack(items, key), op).0 else Stack(items, key)
  {
    var loaded := Load(op.kind, op.data);
    if loaded.Some? {
      StackConcat([Item(op.key, op.kind, loaded.value)], items, key);
    }
  }

  lemma RemoveOnStack(items: seq<Item>, op: Op, key: Key)
    requires WellTyped(items) && op.Remove? && TypedStack(Stack(items, key))
    ensures Stack(OnList(items, op).0, key)
         == if key == op.key then OnStack(Stack(items, key), op).0 else Stack(items, key)
  {
    var i := First(items, op.key);
    FirstIsTop(items, op.key);
    if i < |items| {
      DropOnStack(items, i, key);
    }
  }

  lemma AddOnStack(items: seq<Item>, item: Item, key: Key)
    requires First(items, item.key) == |items|
    ensures Stack(items + [item], key)
         == if key == item.key then [Entry(item.kind, item.value)] else Stack(items, key)
  {
    StackConcat(items, [item], key);
    FirstIsTop(items, item.key);
  }

  lemma DropOnStack(items: seq<Item>, i: nat, key: Key)
    requires i < |items| && i == First(items, items[i].key)
    ensures Stack(items, items[i].key) != []
    ensures Stack(items[..i] + items[i + 1..], key)
         == if key == items[i].key then Stack(items, key)[1..] else Stack(items, key)
  {
    FirstIsTop(items, items[i].key);
    StackAt(items, i, key);
    StackWithout(items, i, key);
  }

  lemma ReplaceOnStack(items: seq<Item>, i: nat, v: Value, key: Key)
    requires i < |items| && i == First(items, items[i].key)
    ensures Stack(items, items[i].key) != []
    ensures Stack(items[i := items[i].(value := v)], key)
         == if key == items[i].key then [Entry(items[i].kind, v)] + Stack(items, key)[1..] else Stack(items, key)
  {
    FirstIsTop(items, items[i].key);
    StackAt(items, i, key);
    StackReplaced(items, i, v, key);
  }

  lemma SetOnStack(items: seq<Item>, op: Op, key: Key)
    requires WellTyped(items) && op.Set? && Callable(op) && TypedStack(Stack(items, key))
    ensures Stack(OnList(items, op).0, key)
         == if key == op.key then OnStack(Stack(items, key), op).0 else Stack(items, key)
    ensures key == op.key ==> OnList(items, op).1 == OnStack(Stack(items, key), op).1
  {
    var i := First(items, op.key);
    var loaded := Load(op.kind, op.data);
    FirstIsTop(items, op.key);
    if i < |items| && items[i].kind != op.kind {
    } else if i < |items| && op.data == Some(Flag(false)) && op.kind.Bool? {
      DropOnStack(items, i, key);
    } else if loaded.None? {
    } else if i < |items| {
      ReplaceOnStack(items, i, loaded.value, key);
    } else {
      AddOnStack(items, Item(op.key, op.kind, loaded.value), key);
    }
  }

  // An operation acts on the stack of its own key and leaves every other stack alone.
  lemma OperationOnStacks(items: seq<Item>, op: Op, key: Key)
    requires WellTyped(items) && Callable(op)
    ensures TypedStack(Stack(items, key))
    ensures Stack(OnList(items, op).0, key)
         == if key == op.key then OnStack(Stack(items, key), op).0 else Stack(items, key)
    ensures key == op.key ==> OnList(items, op).1 == OnStack(Stack(items, key), op).1
  {
    StackTyped(items, key);
    match op
    case Get(_, _, _) => if key == op.key { GetOnStack(items, op); }
    case Set(_, _, _) => SetOnStack(items, op, key);
    case Prepend(_, _, _) => PrependOnStack(items, op, key);
    case Remove(_) => RemoveOnStack(items, op, key);
  }

  // ---- runs ------------------------------------------------------------------------------------

  predicate AllCallable(ops: seq<Op>) {
    forall i :: 0 <= i < |ops| ==> Callable(ops[i])
  }

  // The list after a run, and what the caller saw of each operation.
  function Run(items: seq<Item>, ops: seq<Op>): (r: (seq<Item>, seq<Seen>))
    requires WellTyped(items) && AllCallable(ops)
    ensures WellTyped(r.0) && |r.1| == |ops|
    decreases |ops|
  {
    if ops == [] then (items, [])
    else
      var (after, seen) := OnList(items, ops[0]);
      var (end, rest) := Run(after, ops[1..]);
      (end, [seen] + rest)
  }

  function RunStack(stack: seq<Entry>, ops: seq<Op>): (r: (seq<Entry>, seq<Seen>))
    requires TypedStack(stack) && AllCallable(ops)
    ensures TypedStack(r.0) && |r.1| == |ops|
    decreases |ops|
  {
    if ops == [] then (stack, [])
    else
      var (after, seen) := OnStack(stack, ops[0]);
      var (end, rest) := RunStack(after, ops[1..]);
      (end, [seen] + rest)
  }

  // The operations on a key, and what was seen of them.
  function On(ops: seq<Op>, key: Key): (r: seq<Op>)
    ensures AllCallable(ops) ==> AllCallable(r)
  {
    if ops == [] then []
    else if ops[0].key == key then [ops[0]] + On(ops[1..], key)
    else On(ops[1..], key)
  }

  function SeenOn(ops: seq<Op>, seen: seq<Seen>, key: Key): seq<Seen>
    requires |seen| == |ops|
  {
    if ops == [] then []
    else if ops[0].key == key then [seen[0]] + SeenOn(ops[1..], seen[1..], key)
    else SeenOn(ops[1..], seen[1..], key)
  }

  // Whatever the interleaving, each key sees its own operations on its own stack and nothing else.
  lemma {:induction false} RunsAreStacks(items: seq<Item>, ops: seq<Op>, key: Key)
    requires WellTyped(items) && AllCallable(ops)
    ensures TypedStack(Stack(items, key))
    ensures (Stack(Run(items, ops).0, key), SeenOn(ops, Run(items, ops).1, key))
         == RunStack(Stack(items, key), On(ops, key))
    decreases |ops|
  {
    StackTyped(items, key);
    if ops != [] {
      OperationOnStacks(items, ops[0], key);
      RunsAreStacks(OnList(items, ops[0]).0, ops[1..], key);
      assert Run(items, ops).1[1..] == Run(OnList(items, ops[0]).0, ops[1..]).1;
      if ops[0].key == key {
        assert On(ops, key)[1..] == On(ops[1..], key);
      }
    }
  }

  // ---- what callers rely on --------------------------------------------------------------------

  // A loaded value of a type that is supported unloads unchanged, up to an empty byte object being
  // NULL.
  lemma {:induction false} LoadThenUnload(kind: Type, v: Value)
    requires !kind.Other? && Argument(kind, Some(v))
    ensures Load(kind, Some(v)).Some?
    ensures Unload(kind, Load(kind, Some(v)).value, PointerAndValue, kind)
         == Copied(if v == Blob(Some([])) then Blob(None) else v)
  {
    assert v != Nspace(None) && v != Process(None);
  }

  predicate Others(ops: seq<Op>, key: Key) {
    forall i :: 0 <= i < |ops| ==> ops[i].key != key
  }

  lemma {:induction false} OnOthers(ops: seq<Op>, key: Key)
    requires Others(ops, key)
    ensures On(ops, key) == []
  {
    if ops != [] {
      assert forall i :: 0 <= i < |ops[1..]| ==> ops[1..][i] == ops[i + 1];
      OnOthers(ops[1..], key);
    }
  }

  lemma {:induction false} OthersKeepStack(items: seq<Item>, ops: seq<Op>, key: Key)
    requires WellTyped(items) && AllCallable(ops) && Others(ops, key)
    ensures Stack(Run(items, ops).0, key) == Stack(items, key)
  {
    RunsAreStacks(items, ops, key);
    OnOthers(ops, key);
  }

  // What loading without data leaves to be read: a set flag, zero, or NULL.
  function Nothing(kind: Type): Answer {
    match kind
    case Bool => Copied(Flag(true))
    case String => Copied(Text(None))
    case ByteObject => Copied(Blob(None))
    case Timeval => Copied(Time(0, 0))
    case Pointer => Copied(Address(0))
    case ProcNspace => Undefined
    case Proc => Undefined
    case Envar => Copied(Variable(None, None, '\0'))
    case Other(_) => Refused(NotSupported)
    case _ => Copied(Scalar(0))
  }

  lemma {:induction false} LoadNothing(kind: Type)
    ensures Load(kind, None).Some?
    ensures Unload(kind, Load(kind, None).value, PointerAndValue, kind) == Nothing(kind)
  {
  }

  // What a lookup of a key whose stack has an entry on top gives.
  lemma GetTop(items: seq<Item>, key: Key, place: Storage, e: Entry, below: seq<Entry>)
    requires WellTyped(items) && Fits(e.kind, e.value) && Stack(items, key) == [e] + below && place != NoPlace
    ensures OnList(items, Get(key, place, e.kind)).1 == Looked(true, Some(Unload(e.kind, e.value, place, e.kind)))
  {
    OperationOnStacks(items, Get(key, place, e.kind), key);
  }

  // What loading and then operations on other keys leave of a key's stack.
  lemma LoadedOnTop(items: seq<Item>, op: Op, others: seq<Op>)
    requires WellTyped(items) && Callable(op) && AllCallable(others) && Others(others, op.key)
    requires (op.Set? && op.data != Some(Flag(false))) || op.Prepend?
    requires OnList(items, op).1 == Did(Success)
    ensures Load(op.kind, op.data).Some?
    ensures Stack(Run(OnList(items, op).0, others).0, op.key)
         == [Entry(op.kind, Load(op.kind, op.data).value)]
          + (if op.Prepend? || Stack(items, op.key) == [] then Stack(items, op.key) else Stack(items, op.key)[1..])
  {
    OperationOnStacks(items, op, op.key);
    OthersKeepStack(OnList(items, op).0, others, op.key);
  }

  // A value that was set is read back until another operation on its key, and so is an item that was
  // set without data. What was below the item that it replaced stays there.
  lemma SetThenGet(items: seq<Item>, key: Key, data: Option<Value>, kind: Type, others: seq<Op>)
    requires WellTyped(items) && Argument(kind, data) && AllCallable(others) && Others(others, key)
    requires data != Some(Flag(false))
    requires OnList(items, Set(key, data, kind)).1 == Did(Success)
    ensures var after := Run(OnList(items, Set(key, data, kind)).0, others).0;
            && OnList(after, Get(key, PointerAndValue, kind)).1
               == Looked(true, Some(if data.None? then Nothing(kind)
                                    else if data == Some(Blob(Some([]))) then Copied(Blob(None))
                                    else Copied(data.value)))
            && Stack(after, key) != []
            && Stack(after, key)[1..] == (if Stack(items, key) == [] then [] else Stack(items, key)[1..])
  {
    var op := Set(key, data, kind);
    var after := Run(OnList(items, op).0, others).0;
    LoadedOnTop(items, op, others);
    GetTop(after, key, PointerAndValue, Entry(kind, Load(kind, data).value), Stack(after, key)[1..]);
    if data.None? {
      LoadNothing(kind);
    } else {
      LoadThenUnload(kind, data.value);
    }
  }

  // A prepended item hides what its key held, and removing it brings that back.
  lemma {:induction false} PrependThenRemove(items: seq<Item>, key: Key, data: Option<Value>, kind: Type,
                          others: seq<Op>)
    requires WellTyped(items) && Argument(kind, data) && AllCallable(others) && Others(others, key)
    requires OnList(items, Prepend(key, data, kind)).1 == Did(Success)
    ensures var after := Run(OnList(items, Prepend(key, data, kind)).0, others).0;
            Stack(OnList(after, Remove(key)).0, key) == Stack(items, key)
  {
    var later := OnList(items, Prepend(key, data, kind)).0;
    OperationOnStacks(items, Prepend(key, data, kind), key);
    OthersKeepStack(later, others, key);
    OperationOnStacks(Run(later, others).0, Remove(key), key);
  }

  // Setting a flag to false does not overwrite it: the flag is gone afterwards exactly when it was
  // the only entry of its key. Otherwise the next entry shows, and a flag that was absent is stored.
  lemma {:induction false} ClearingAFlag(items: seq<Item>, key: Key)
    requires WellTyped(items)
    ensures TypedStack(Stack(items, key))
    ensures var stack := Stack(items, key);
            var (after, seen) := OnList(items, Set(key, Some(Flag(false)), Bool));
            && (seen == Did(Success) <==> stack == [] || stack[0].kind == Bool)
            && (seen == Did(Success) ==>
                  (Stack(after, key) == [] <==> |stack| == 1)
                  && OnList(after, Get(key, PointerAndValue, Bool)).1
                     == if stack == [] then Looked(true, Some(Copied(Flag(false))))
                        else Peek(stack[1..], PointerAndValue, Bool))
  {
    var op := Set(key, Some(Flag(false)), Bool);
    var after := OnList(items, op).0;
    OperationOnStacks(items, op, key);
    OperationOnStacks(after, Get(key, PointerAndValue, Bool), key);
  }

  // Without prepending, no key ever has two entries.
  lemma {:induction false} SetsKeepKeysUnique(items: seq<Item>, ops: seq<Op>, key: Key)
    requires WellTyped(items) && AllCallable(ops) && |Stack(items, key)| <= 1
    requires forall i :: 0 <= i < |ops| ==> !ops[i].Prepend?
    ensures |Stack(Run(items, ops).0, key)| <= 1
    decreases |ops|
  {
    if ops != [] {
      OperationOnStacks(items, ops[0], key);
      assert forall i :: 0 <= i < |ops[1..]| ==> ops[1..][i] == ops[i + 1];
      SetsKeepKeysUnique(OnList(items, ops[0]).0, ops[1..], key);
    }
  }

  // ---- lookups without a defined outcome -------------------------------------------------------

  // The values whose unloading has no defined outcome.
  predicate Null(v: Value) {
    v == Nspace(None) || v == Process(None)
  }

  predicate LoadsNull(op: Op) {
    (op.Set? || op.Prepend?) && op.data.None? && op.kind in {ProcNspace, Proc}
  }

  predicate NoNull(items: seq<Item>) {
    forall i :: 0 <= i < |items| ==> !Null(items[i].value)
  }

  lemma NoNullKept(items: seq<Item>, op: Op)
    requires WellTyped(items) && Callable(op) && NoNull(items) && !LoadsNull(op)
    ensures NoNull(OnList(items, op).0)
    ensures OnList(items, op).1 != Looked(true, Some(Undefined))
  {
  }

  // As long as no process or namespace is set without data, every lookup has a defined outcome.
  lemma {:induction false} LookupsAreDefined(items: seq<Item>, ops: seq<Op>)
    requires WellTyped(items) && AllCallable(ops) && NoNull(items)
    requires forall i :: 0 <= i < |ops| ==> !LoadsNull(ops[i])
    ensures Looked(true, Some(Undefined)) !in Run(items, ops).1
    decreases |ops|
  {
    if ops != [] {
      NoNullKept(items, ops[0]);
      assert forall i :: 0 <= i < |ops[1..]| ==> ops[1..][i] == ops[i + 1];
      LookupsAreDefined(OnList(items, ops[0]).0, ops[1..]);
    }
  }

  // What was loaded into the entries of a key, the one on top first.
  datatype Loading = Loaded(kind: Type, data: Option<Value>)

  predicate Loadable(l: Loading) {
    Argument(l.kind, l.data) && Load(l.kind, l.data).Some?
  }

  predicate AllLoadable(loads: seq<Loading>) {
    forall i :: 0 <= i < |loads| ==> Loadable(loads[i])
  }

  // What an operation on a key makes of that, without looking at any value.
  function OnLoads(loads: seq<Loading>, op: Op): (r: seq<Loading>)
    requires AllLoadable(loads) && Callable(op)
    ensures AllLoadable(r)
  {
    match op
    case Get(_, _, _) => loads
    case Remove(_) => if loads == [] then [] else loads[1..]
    case Prepend(_, data, kind) => if kind.Other? && data.Some? then loads else [Loaded(kind, data)] + loads
    case Set(_, data, kind) =>
      if loads != [] && loads[0].kind != kind then loads
      else if loads != [] && kind.Bool? && data == Some(Flag(false)) then loads[1..]
      else if kind.Other? && data.Some? then loads
      else [Loaded(kind, data)] + (if loads == [] then [] else loads[1..])
  }

  function RunLoads(loads: seq<Loading>, ops: seq<Op>): (r: seq<Loading>)
    requires AllLoadable(loads) && AllCallable(ops)
    ensures AllLoadable(r)
    decreases |ops|
  {
    if ops == [] then loads else RunLoads(OnLoads(loads, ops[0]), ops[1..])
  }

  function Entries(loads: seq<Loading>): (r: seq<Entry>)
    requires AllLoadable(loads)
    ensures |r| == |loads| && TypedStack(r)
    ensures forall i :: 0 <= i < |r| ==> r[i] == Entry(loads[i].kind, Load(loads[i].kind, loads[i].data).value)
  {
    seq(|loads|, i requires 0 <= i < |loads| => Entry(loads[i].kind, Load(loads[i].kind, loads[i].data).value))
  }

  lemma StackHoldsLoads(loads: seq<Loading>, op: Op)
    requires AllLoadable(loads) && Callable(op)
    ensures OnStack(Entries(loads), op).0 == Entries(OnLoads(loads, op))
  {
  }

  lemma {:induction false} RunHoldsLoads(loads: seq<Loading>, ops: seq<Op>)
    requires AllLoadable(loads) && AllCallable(ops)
    ensures RunStack(Entries(loads), ops).0 == Entries(RunLoads(loads, ops))
    decreases |ops|
  {
    if ops != [] {
      StackHoldsLoads(loads, ops[0]);
      RunHoldsLoads(OnLoads(loads, ops[0]), ops[1..]);
    }
  }

  // Whether a lookup has no defined outcome is decided by the operations on its key alone: exactly
  // when the entry that they leave on top was loaded without data as a process or a namespace, and
  // the lookup asks for that type and has a place for the answer.
  lemma {:induction false} UndefinedLookups(ops: seq<Op>, key: Key, place: Storage, kind: Type)
    requires AllCallable(ops)
    ensures var loads := RunLoads([], On(ops, key));
            OnList(Run([], ops).0, Get(key, place, kind)).1 == Looked(true, Some(Undefined))
            <==> loads != [] && loads[0] == Loaded(kind, None) && kind in {ProcNspace, Proc} && place != NoPlace
  {
    var items, loads := Run([], ops).0, RunLoads([], On(ops, key));
    RunsAreStacks([], ops, key);
    RunHoldsLoads([], On(ops, key));
    assert Entries([]) == [];
    assert Stack(items, key) == Entries(loads);
    OperationOnStacks(items, Get(key, place, kind), key);
    if loads != [] && loads[0].kind == kind {
      NullLoads(loads[0]);
    }
  }

  // A loaded value is NULL exactly when it was loaded without data as a process or a namespace.
  lemma NullLoads(l: Loading)
    requires Loadable(l)
    ensures Null(Load(l.kind, l.data).value) <==> l.data.None? && l.kind in {ProcNspace, Proc}
  {
  }

  // Such a lookup is reached from any list: by loading a process or a namespace without data.
  lemma {:induction false} NullLoadedThenUndefined(items: seq<Item>, load: Op, place: Storage, others: seq<Op>)
    requires WellTyped(items) && AllCallable(others) && Others(others, load.key)
    requires load.Prepend? || load.Set?
    requires load.Set? && Stack(items, load.key) != [] ==> Stack(items, load.key)[0].kind == load.kind
    requires load.kind in {ProcNspace, Proc} && load.data == None && place != NoPlace
    ensures OnList(items, load).1 == Did(Success)
    ensures OnList(Run(OnList(items, load).0, others).0, Get(load.key, place, load.kind)).1
         == Looked(true, Some(Undefined))
  {
    OperationOnStacks(items, load, load.key);
    LoadedOnTop(items, load, others);
    var after := Run(OnList(items, load).0, others).0;
    GetTop(after, load.key, place, Entry(load.kind, Load(load.kind, None).value), Stack(after, load.key)[1..]);
  }

  lemma RunOfThree(items: seq<Item>, x: Op, y: Op, z: Op)
    requires WellTyped(items) && Callable(x) && Callable(y) && Callable(z)
    ensures Run(items, [x, y, z]).0 == OnList(OnList(OnList(items, x).0, y).0, z).0
  {
    assert [x, y, z][1..] == [y, z] && [y, z][1..] == [z] && [z][1..] == [];
    var after := OnList(OnList(items, x).0, y).0;
    assert Run(after, [z]).0 == OnList(after, z).0;
  }

  // A flag that was prepended twice is still found set after it has been set to false.
  lemma ClearedFlagShows(key: Key)
    ensures var push, clear := Prepend(key, None, Bool), Set(key, Some(Flag(false)), Bool);
            var items := Run([], [push, push, clear]).0;
            OnList(items, Get(key, PointerAndValue, Bool)).1 == Looked(true, Some(Copied(Flag(true))))
  {
    var push, clear := Prepend(key, None, Bool), Set(key, Some(Flag(false)), Bool);
    RunOfThree([], push, push, clear);
    var once := OnList([], push).0;
    var twice := OnList(once, push).0;
    var e := Entry(Bool, Flag(true));
    OperationOnStacks([], push, key);
    OperationOnStacks(once, push, key);
    assert Stack(twice, key) == [e, e];
    OperationOnStacks(twice, clear, key);
    GetTop(OnList(twice, clear).0, key, PointerAndValue, e, []);
  }
}
