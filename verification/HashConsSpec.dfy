/**
  Interned function names and hash-consed call stacks: the records the database keeps, what a
  stack identifier denotes, and the operations on identifiers.
 */
module HashConsSpec {
  import opened Common

  type FunctionId = nat
  type StackId = nat

  const EMPTY_STACK: StackId := 0
  const TWO_32: nat := 0x1_0000_0000

  datatype Stack = Stack(callee: FunctionId, bottom: StackId)

  /** The records by kind: identifier to content and back, and the next identifier of each kind. */
  datatype Store = Store(names: map<FunctionId, string>, nameIds: map<string, FunctionId>, nextName: FunctionId,
                         stacks: map<StackId, Stack>, stackIds: map<Stack, StackId>, nextStack: StackId)
  {
    predicate IsStack(id: StackId) { id == EMPTY_STACK || id in stacks }

    /** Identifiers count up from 1, each content has one, and a stack is built on an older one. */
    ghost predicate Consistent() {
      && 1 <= nextName < TWO_32 && 1 <= nextStack < TWO_32
      && (forall id: nat :: id in names <==> 1 <= id < nextName)
      && (forall id: nat :: id in stacks <==> 1 <= id < nextStack)
      && (forall id <- stacks :: stacks[id].bottom < id)
      && (forall n <- nameIds :: nameIds[n] in names && names[nameIds[n]] == n)
      && (forall id <- names :: names[id] in nameIds && nameIds[names[id]] == id)
      && (forall st <- stackIds :: stackIds[st] in stacks && stacks[stackIds[st]] == st)
      && (forall id <- stacks :: stacks[id] in stackIds && stackIds[stacks[id]] == id)
    }

    /** The functions of a stack, bottom first. */
    ghost function Functions(id: StackId): seq<FunctionId>
      requires Consistent() && IsStack(id)
      decreases id
    {
      if id == EMPTY_STACK then [] else Functions(stacks[id].bottom) + [stacks[id].callee]
    }

    /** The identifier of a name, new or not. */
    function AddName(name: string): (Store, FunctionId) {
      if name in nameIds then (this, nameIds[name])
      else
        (this.(names := names[nextName := name], nameIds := nameIds[name := nextName],
               nextName := (nextName + 1) % TWO_32),
         nextName)
    }

    function AddStack(st: Stack): (Store, StackId) {
      if st in stackIds then (this, stackIds[st])
      else
        (this.(stacks := stacks[nextStack := st], stackIds := stackIds[st := nextStack],
               nextStack := (nextStack + 1) % TWO_32),
         nextStack)
    }

    /** At least `n` more identifiers of each kind are available. */
    predicate Room(n: nat) { nextName + n < TWO_32 && nextStack + n < TWO_32 }

    /** The stack of `fs`, bottom first, built on `bottom`. */
    function Push(bottom: StackId, fs: seq<FunctionId>): (Store, StackId)
      decreases |fs|
    {
      if fs == [] then (this, bottom)
      else
        var (s, id) := AddStack(Stack(fs[0], bottom));
        s.Push(id, fs[1..])
    }

    /** Every record of this store is in `s`. */
    ghost predicate Extends(s: Store) {
      && names.Keys <= s.names.Keys && (forall id <- names :: s.names[id] == names[id])
      && stacks.Keys <= s.stacks.Keys && (forall id <- stacks :: s.stacks[id] == stacks[id])
    }
  }

  const EMPTY: Store := Store(map[], map[], 1, map[], map[], 1)

  // ----- Canonicity

  /** One list of functions has at most one identifier. */
  lemma {:induction false} FunctionsInjective(s: Store, a: StackId, b: StackId)
    requires s.Consistent() && s.IsStack(a) && s.IsStack(b) && s.Functions(a) == s.Functions(b)
    ensures a == b
    decreases a
  {
    if a != EMPTY_STACK && b != EMPTY_STACK {
      var fa, fb := s.Functions(a), s.Functions(b);
      assert fa[|fa| - 1] == s.stacks[a].callee && fb[|fb| - 1] == s.stacks[b].callee;
      assert s.Functions(s.stacks[a].bottom) == fa[..|fa| - 1] && s.Functions(s.stacks[b].bottom) == fb[..|fb| - 1];
      FunctionsInjective(s, s.stacks[a].bottom, s.stacks[b].bottom);
      assert s.stacks[a] == s.stacks[b];
    }
  }

  lemma {:induction false} FunctionsKept(s: Store, t: Store, id: StackId)
    requires s.Consistent() && t.Consistent() && s.Extends(t) && s.IsStack(id)
    ensures t.IsStack(id) && t.Functions(id) == s.Functions(id)
    decreases id
  {
    if id != EMPTY_STACK {
      FunctionsKept(s, t, s.stacks[id].bottom);
    }
  }

  lemma AddStackConsistent(s: Store, st: Stack)
    requires s.Consistent() && s.IsStack(st.bottom) && s.nextStack + 1 < TWO_32
    ensures var (t, id) := s.AddStack(st);
            && t.Consistent() && s.Extends(t) && id in t.stacks && t.stacks[id] == st
            && t.nextStack <= s.nextStack + 1 && t.nextName == s.nextName && t.names == s.names
            && t.nameIds == s.nameIds
  {
    if st !in s.stackIds {
      assert s.nextStack !in s.stacks;
      assert forall id <- s.stacks :: s.stacks[id] != st;
    }
  }

  lemma AddStackDenotes(s: Store, st: Stack)
    requires s.Consistent() && s.IsStack(st.bottom) && s.nextStack + 1 < TWO_32
    ensures var (t, id) := s.AddStack(st);
            t.Consistent() && t.IsStack(id) && t.Functions(id) == s.Functions(st.bottom) + [st.callee]
  {
    AddStackConsistent(s, st);
    var (t, id) := s.AddStack(st);
    hide Store.Consistent, Store.Extends, Store.AddStack;
    FunctionsKept(s, t, st.bottom);
    NotEmpty(t, id);
  }

  lemma NotEmpty(s: Store, id: StackId)
    requires s.Consistent() && id in s.stacks
    ensures id != EMPTY_STACK
  {
  }

  lemma AddNameConsistent(s: Store, name: string)
    requires s.Consistent() && s.nextName + 1 < TWO_32
    ensures var (t, id) := s.AddName(name);
            && t.Consistent() && s.Extends(t) && id in t.names && t.names[id] == name
            && t.nextName <= s.nextName + 1 && t.nextStack == s.nextStack && t.stacks == s.stacks
            && t.stackIds == s.stackIds
  {
    if name !in s.nameIds {
      assert s.nextName !in s.names;
      assert forall id <- s.names :: s.names[id] != name;
    }
  }

  /** A database stays consistent exactly until the identifier after the last is asked for. */
  lemma ConsistentUntilWrap(s: Store, name: string, st: Stack)
    requires s.Consistent() && s.IsStack(st.bottom)
    ensures s.AddName(name).0.Consistent() <==> name in s.nameIds || s.nextName + 1 < TWO_32
    ensures s.AddStack(st).0.Consistent() <==> st in s.stackIds || s.nextStack + 1 < TWO_32
  {
    if s.nextName + 1 < TWO_32 { AddNameConsistent(s, name); }
    if s.nextStack + 1 < TWO_32 { AddStackConsistent(s, st); }
  }

  lemma ExtendsTransitive(s: Store, t: Store, u: Store)
    requires s.Extends(t) && t.Extends(u)
    ensures s.Extends(u)
  {
  }

  /** Pushing functions on a stack denotes appending them, for every list: each list has an identifier. */
  lemma {:induction false} PushAppends(s: Store, bottom: StackId, fs: seq<FunctionId>)
    requires s.Consistent() && s.IsStack(bottom) && s.nextStack + |fs| < TWO_32
    ensures var (t, id) := s.Push(bottom, fs);
            && t.Consistent() && s.Extends(t) && t.IsStack(id) && t.nextStack <= s.nextStack + |fs|
            && t.nextName == s.nextName
            && t.Functions(id) == s.Functions(bottom) + fs
    decreases |fs|
  {
    hide Store.Consistent, Store.Extends, Store.AddStack, Store.Functions;
    if fs == [] {
      ExtendsSelf(s);
    } else {
      var st := Stack(fs[0], bottom);
      AddStackConsistent(s, st);
      AddStackDenotes(s, st);
      var (t, id) := s.AddStack(st);
      PushAppends(t, id, fs[1..]);
      ExtendsTransitive(s, t, t.Push(id, fs[1..]).0);
      assert s.Functions(bottom) + [fs[0]] + fs[1..] == s.Functions(bottom) + fs;
    }
  }

  lemma ExtendsSelf(s: Store)
    ensures s.Extends(s)
  {
  }

  // ----- Concatenation

  /** The identifier of one stack put on another. */
  ghost function Concat(s: Store, bottom: StackId, top: StackId): (Store, StackId)
    requires s.Consistent() && s.IsStack(top)
  {
    s.Push(bottom, s.Functions(top))
  }

  /** Where the answer is already interned, pushing finds it and stores nothing. */
  lemma {:induction false} PushFindsExisting(s: Store, bottom: StackId, fs: seq<FunctionId>, id: StackId)
    requires s.Consistent() && s.IsStack(bottom) && s.IsStack(id) && s.Functions(id) == s.Functions(bottom) + fs
    ensures s.Push(bottom, fs) == (s, id)
    decreases |fs|
  {
    if fs == [] {
      assert s.Functions(bottom) + fs == s.Functions(bottom);
      FunctionsInjective(s, id, bottom);
    } else {
      var fid := s.Functions(id);
      PrefixIsInterned(s, id, |fid| - |fs| + 1);
      var mid := Below(s, id, |fid| - |fs| + 1);
      assert fid[..|fid| - |fs| + 1] == s.Functions(bottom) + [fs[0]];
      NotEmpty(s, mid);
      assert s.Functions(mid) == s.Functions(s.stacks[mid].bottom) + [s.stacks[mid].callee];
      assert s.stacks[mid].callee == s.Functions(mid)[|fid| - |fs|] == fs[0];
      assert s.Functions(s.stacks[mid].bottom) == s.Functions(mid)[..|s.Functions(mid)| - 1] == s.Functions(bottom);
      FunctionsInjective(s, s.stacks[mid].bottom, bottom);
      assert s.stacks[mid] == Stack(fs[0], bottom);
      assert s.Functions(mid) + fs[1..] == fid;
      PushFindsExisting(s, mid, fs[1..], id);
    }
  }

  /** The stack of the `n` lowest functions of a stack. */
  ghost function Below(s: Store, id: StackId, n: nat): StackId
    requires s.Consistent() && s.IsStack(id) && n <= |s.Functions(id)|
    decreases id
  {
    if n == |s.Functions(id)| then id else Below(s, s.stacks[id].bottom, n)
  }

  lemma {:induction false} PrefixIsInterned(s: Store, id: StackId, n: nat)
    requires s.Consistent() && s.IsStack(id) && n <= |s.Functions(id)|
    ensures s.IsStack(Below(s, id, n)) && s.Functions(Below(s, id, n)) == s.Functions(id)[..n]
    ensures n > 0 ==> Below(s, id, n) in s.stacks
    decreases id
  {
    if n < |s.Functions(id)| {
      PrefixIsInterned(s, s.stacks[id].bottom, n);
    }
  }

  /** The empty stack is a unit on both sides, and adds nothing to the store. */
  lemma ConcatUnit(s: Store, id: StackId)
    requires s.Consistent() && s.IsStack(id)
    ensures Concat(s, id, EMPTY_STACK) == (s, id) && Concat(s, EMPTY_STACK, id) == (s, id)
  {
    PushFindsExisting(s, EMPTY_STACK, s.Functions(id), id);
  }

  /** Concatenation is associative as an operation on identifiers, whichever way it is computed first. */
  lemma ConcatAssociative(s: Store, a: StackId, b: StackId, c: StackId)
    requires s.Consistent() && s.IsStack(a) && s.IsStack(b) && s.IsStack(c)
    requires s.nextStack + 2 * (|s.Functions(b)| + |s.Functions(c)|) < TWO_32
    ensures var (s1, ab) := Concat(s, a, b);
            && s1.Consistent() && s1.IsStack(c)
            && var (s2, left) := Concat(s1, ab, c);
               && s2.Consistent() && s2.IsStack(c)
               && var (s3, bc) := Concat(s2, b, c);
                  && s3.Consistent() && s3.IsStack(bc)
                  && Concat(s3, a, bc) == (s3, left)
  {
    hide Store.Consistent, Store.Extends, Store.Push, Store.Functions;
    PushAppends(s, a, s.Functions(b));
    var (s1, ab) := Concat(s, a, b);
    FunctionsKept(s, s1, b);
    FunctionsKept(s, s1, c);
    PushAppends(s1, ab, s1.Functions(c));
    var (s2, left) := Concat(s1, ab, c);
    FunctionsKept(s1, s2, b);
    FunctionsKept(s1, s2, c);
    PushAppends(s2, b, s2.Functions(c));
    var (s3, bc) := Concat(s2, b, c);
    FunctionsKept(s2, s3, left);
    ExtendsTransitive(s, s1, s2);
    ExtendsTransitive(s, s2, s3);
    FunctionsKept(s, s3, a);
    assert s3.Functions(left) == s.Functions(a) + s.Functions(b) + s.Functions(c) == s3.Functions(a) + s3.Functions(bc);
    PushFindsExisting(s3, a, s3.Functions(bc), left);
  }

  // ----- Memoised concatenation

  type Cache = map<(StackId, StackId), StackId>

  /** Each remembered answer denotes the concatenation it is remembered for. */
  ghost predicate CacheOk(s: Store, cache: Cache)
    requires s.Consistent()
  {
    forall k <- cache ::
      s.IsStack(k.0) && s.IsStack(k.1) && s.IsStack(cache[k])
      && s.Functions(cache[k]) == s.Functions(k.0) + s.Functions(k.1)
  }

  /** A remembered answer is the one that would be computed, and computing it would store nothing. */
  lemma CacheNeverChangesAnswer(s: Store, cache: Cache, bottom: StackId, top: StackId)
    requires s.Consistent() && CacheOk(s, cache) && (bottom, top) in cache
    ensures s.IsStack(top) && Concat(s, bottom, top) == (s, cache[(bottom, top)])
  {
    var k := (bottom, top);
    assert k.0 == bottom && k.1 == top;
    PushFindsExisting(s, bottom, s.Functions(top), cache[k]);
  }

  lemma CacheKept(s: Store, t: Store, cache: Cache)
    requires s.Consistent() && t.Consistent() && s.Extends(t) && CacheOk(s, cache)
    ensures CacheOk(t, cache)
  {
    hide Store.Consistent, Store.Extends, Store.Functions;
    forall k <- cache
      ensures t.IsStack(k.0) && t.IsStack(k.1) && t.IsStack(cache[k])
              && t.Functions(cache[k]) == t.Functions(k.0) + t.Functions(k.1)
    {
      FunctionsKept(s, t, k.0);
      FunctionsKept(s, t, k.1);
      FunctionsKept(s, t, cache[k]);
    }
  }

  // ----- Stacks of names

  /** The names of a stack's functions, top first. */
  ghost function Names(s: Store, id: StackId): seq<string>
    requires s.Consistent() && s.IsStack(id) && Named(s, id)
    decreases id
  {
    if id == EMPTY_STACK then [] else [s.names[s.stacks[id].callee]] + Names(s, s.stacks[id].bottom)
  }

  ghost predicate Named(s: Store, id: StackId)
    requires s.Consistent() && s.IsStack(id)
    decreases id
  {
    id == EMPTY_STACK || (s.stacks[id].callee in s.names && Named(s, s.stacks[id].bottom))
  }

  /** One more named function on top of a stack. */
  function PushName(s: Store, bottom: StackId, name: string): (Store, StackId) {
    var (t, f) := s.AddName(name);
    t.AddStack(Stack(f, bottom))
  }

  /** The stack of the last `n` names of `v`, which is top first, on the empty stack. */
  function PushNames(s: Store, v: seq<string>, n: nat): (Store, StackId)
    requires n <= |v|
  {
    if n == 0 then (s, EMPTY_STACK)
    else
      var (t, id) := PushNames(s, v, n - 1);
      PushName(t, id, v[|v| - n])
  }

  lemma {:induction false} NamesKept(s: Store, t: Store, id: StackId)
    requires s.Consistent() && t.Consistent() && s.Extends(t) && s.IsStack(id) && Named(s, id)
    ensures t.IsStack(id) && Named(t, id) && Names(t, id) == Names(s, id)
    decreases id
  {
    if id != EMPTY_STACK {
      NamesKept(s, t, s.stacks[id].bottom);
    }
  }

  lemma PushNameDenotes(s: Store, bottom: StackId, name: string)
    requires s.Consistent() && s.IsStack(bottom) && Named(s, bottom) && s.Room(1)
    ensures var (t, id) := PushName(s, bottom, name);
            && t.Consistent() && s.Extends(t) && t.IsStack(id) && id != EMPTY_STACK && Named(t, id)
            && Names(t, id) == [name] + Names(s, bottom)
            && t.nextName <= s.nextName + 1 && t.nextStack <= s.nextStack + 1
  {
    hide Store.Consistent, Store.AddName, Store.AddStack, Store.Extends;
    AddNameConsistent(s, name);
    var (u, f) := s.AddName(name);
    StacksAlike(s, u, bottom);
    AddStackConsistent(u, Stack(f, bottom));
    var (t, id) := u.AddStack(Stack(f, bottom));
    NotEmpty(t, id);
    ExtendsTransitive(s, u, t);
    NamesKept(s, t, bottom);
  }

  lemma StacksAlike(s: Store, u: Store, bottom: StackId)
    requires s.stacks == u.stacks && s.IsStack(bottom)
    ensures u.IsStack(bottom)
  {
  }

  /** Unwinding the identifier of a list of names gives back exactly the list. */
  lemma {:induction false} NamesRoundTrip(s: Store, v: seq<string>, n: nat)
    requires s.Consistent() && n <= |v| && s.Room(n)
    ensures var (t, id) := PushNames(s, v, n);
            && t.Consistent() && s.Extends(t) && t.IsStack(id) && Named(t, id) && Names(t, id) == v[|v| - n..]
            && t.nextName <= s.nextName + n && t.nextStack <= s.nextStack + n
  {
    hide Store.Consistent, Store.Extends, PushName;
    if n == 0 {
      ExtendsSelf(s);
    } else {
      NamesRoundTrip(s, v, n - 1);
      var (t, id) := PushNames(s, v, n - 1);
      PushNameDenotes(t, id, v[|v| - n]);
      ExtendsTransitive(s, t, PushName(t, id, v[|v| - n]).0);
      assert [v[|v| - n]] + v[|v| - (n - 1)..] == v[|v| - n..];
    }
  }
}
