/** The stack and function-name records of the database, with their caches. */
module Databases {
  import opened Common
  import opened HashConsSpec

  class Database {
    var store: Store
    var functionNamesCache: map<FunctionId, string>
    var stacksCache: map<StackId, Stack>

    /** The caches hold only what the store holds. */
    ghost predicate Valid()
      reads this
    {
      && store.Consistent()
      && (forall id <- functionNamesCache :: id in store.names && store.names[id] == functionNamesCache[id])
      && (forall id <- stacksCache :: id in store.stacks && store.stacks[id] == stacksCache[id])
    }

    constructor ()
      ensures Valid() && store == EMPTY
    {
      store, functionNamesCache, stacksCache := EMPTY, map[], map[];
    }

    /** Stays valid until the identifiers run out. */
    method AddFunctionName(name: string) returns (id: FunctionId)
      requires Valid()
      modifies this`store, this`functionNamesCache
      ensures (store, id) == old(store).AddName(name)
      ensures old(name in store.nameIds || store.nextName + 1 < TWO_32) ==> Valid()
    {
      if name in store.nameIds {
        return store.nameIds[name];
      }
      ghost var s := store;
      id := store.nextName;
      store := store.(names := store.names[id := name], nameIds := store.nameIds[name := id],
                      nextName := (id + 1) % TWO_32);
      functionNamesCache := functionNamesCache[id := name];
      if s.nextName + 1 < TWO_32 {
        hide Store.Consistent;
        AddNameConsistent(s, name);
      }
    }

    /** The name of an identifier; absent where the database reports a fatal error. */
    method GetFunctionName(id: FunctionId) returns (name: Option<string>)
      requires Valid()
      modifies this`functionNamesCache
      ensures Valid() && name == if id in store.names then Some(store.names[id]) else None
    {
      hide Store.Consistent;
      if id in functionNamesCache { return Some(functionNamesCache[id]); }
      if id !in store.names { return None; }
      functionNamesCache := functionNamesCache[id := store.names[id]];
      name := Some(functionNamesCache[id]);
    }

    /** Stays valid, given a known bottom, until the identifiers run out. */
    method AddStack(st: Stack) returns (id: StackId)
      requires Valid()
      modifies this`store, this`stacksCache
      ensures (store, id) == old(store).AddStack(st)
      ensures old(st in store.stackIds || (store.IsStack(st.bottom) && store.nextStack + 1 < TWO_32)) ==> Valid()
    {
      if st in store.stackIds {
        return store.stackIds[st];
      }
      ghost var s := store;
      id := store.nextStack;
      store := store.(stacks := store.stacks[id := st], stackIds := store.stackIds[st := id],
                      nextStack := (id + 1) % TWO_32);
      stacksCache := stacksCache[id := st];
      if s.IsStack(st.bottom) && s.nextStack + 1 < TWO_32 {
        hide Store.Consistent;
        AddStackConsistent(s, st);
      }
    }

    /** The cell of an identifier; absent where the database reports a fatal error. */
    method GetStack(id: StackId) returns (st: Option<Stack>)
      requires Valid()
      modifies this`stacksCache
      ensures Valid() && st == if id in store.stacks then Some(store.stacks[id]) else None
    {
      hide Store.Consistent;
      if id in stacksCache { return Some(stacksCache[id]); }
      if id !in store.stacks { return None; }
      stacksCache := stacksCache[id := store.stacks[id]];
      st := Some(stacksCache[id]);
    }
  }
}
