/** JSON trees and the nesting-depth check that is made before a document is interpreted. */
module Json {
  import opened Prelude

  const MAX_JSON_DEPTH: nat := 16

  /**
    An object's members are listed in key order, the iteration order of the source's tree type. A string is what
    `std::string` holds: its UTF-8 octets, one element for each, so its length counts bytes and not characters.
    */
  datatype Value =
    | JNull
    | JBool(b: bool)
    | JInt(n: int)
    | JFloat(x: real)
    | JString(s: string)
    | JArray(items: seq<Value>)
    | JObject(members: seq<Member>)

  datatype Member = Member(key: string, value: Value)

  predicate IsStructured(v: Value) {
    v.JArray? || v.JObject?
  }

  function Lookup(members: seq<Member>, key: string): Option<Value> {
    if members == [] then None
    else if members[0].key == key then Some(members[0].value)
    else Lookup(members[1..], key)
  }

  /** A lookup finds the first member of that key, and nothing exactly when there is none. */
  lemma {:induction false} LookupMeaning(members: seq<Member>, key: string)
    ensures Lookup(members, key).None? <==> forall i :: 0 <= i < |members| ==> members[i].key != key
    ensures Lookup(members, key).Some? ==>
              exists k :: 0 <= k < |members| && members[k] == Member(key, Lookup(members, key).value)
                          && forall i :: 0 <= i < k ==> members[i].key != key
  {
    if members == [] {
    } else if members[0].key == key {
      assert members[0] == Member(key, Lookup(members, key).value);
    } else {
      var rest := members[1..];
      LookupMeaning(rest, key);
      assert forall i :: 0 < i < |members| ==> members[i] == rest[i - 1];
      assert Lookup(members, key) == Lookup(rest, key);
      if Lookup(rest, key).Some? {
        var k :| 0 <= k < |rest| && rest[k] == Member(key, Lookup(rest, key).value)
                 && forall i :: 0 <= i < k ==> rest[i].key != key;
        assert members[k + 1] == Member(key, Lookup(members, key).value);
      }
    }
  }

  // ---------------------------------------------------------------- true depth

  /** Nesting depth without any cut-off: scalars and empty containers have depth 0. */
  function Depth(v: Value): nat
    decreases v
  {
    match v
    case JArray(items) => ItemsDepth(items)
    case JObject(members) => MembersDepth(members)
    case _ => 0
  }

  function ItemsDepth(items: seq<Value>): nat
    decreases items
  {
    if items == [] then 0
    else Max(ItemsDepth(items[..|items| - 1]), 1 + Depth(items[|items| - 1]))
  }

  function MembersDepth(members: seq<Member>): nat
    decreases members
  {
    if members == [] then 0
    else Max(MembersDepth(members[..|members| - 1]), 1 + Depth(members[|members| - 1].value))
  }

  function ChildCount(v: Value): nat {
    match v
    case JArray(items) => |items|
    case JObject(members) => |members|
    case _ => 0
  }

  function Child(v: Value, i: nat): Value
    requires i < ChildCount(v)
  {
    if v.JArray? then v.items[i] else v.members[i].value
  }

  /** The depth of `v` counting its first `n` children only. */
  function DepthUpTo(v: Value, n: nat): nat
    requires n <= ChildCount(v)
  {
    match v
    case JArray(items) => ItemsDepth(items[..n])
    case JObject(members) => MembersDepth(members[..n])
    case _ => 0
  }

  lemma DepthUpToStep(v: Value, n: nat)
    requires n < ChildCount(v)
    ensures DepthUpTo(v, 0) == 0
    ensures DepthUpTo(v, n + 1) == Max(DepthUpTo(v, n), 1 + Depth(Child(v, n)))
  {
    if v.JArray? {
      assert v.items[..n + 1][..n] == v.items[..n];
    } else {
      assert v.members[..n + 1][..n] == v.members[..n];
    }
  }

  lemma DepthUpToAll(v: Value)
    ensures DepthUpTo(v, 0) == 0
    ensures DepthUpTo(v, ChildCount(v)) == Depth(v)
  {
    if v.JArray? {
      assert v.items[..|v.items|] == v.items;
    } else if v.JObject? {
      assert v.members[..|v.members|] == v.members;
    }
  }

  /** Depth is what it should be: each child is at least one level shallower, and one of them attains it. */
  lemma DepthIsOverChildren(v: Value)
    ensures forall i: nat :: i < ChildCount(v) ==> Depth(Child(v, i)) < Depth(v)
    ensures if ChildCount(v) == 0 then Depth(v) == 0
            else exists i: nat :: i < ChildCount(v) && Depth(v) == Depth(Child(v, i)) + 1
  {
    DepthUpToAll(v);
    DepthUpToIsOverChildren(v, ChildCount(v));
  }

  lemma {:induction false} DepthUpToIsOverChildren(v: Value, n: nat)
    requires n <= ChildCount(v)
    ensures forall i: nat :: i < n ==> Depth(Child(v, i)) < DepthUpTo(v, n)
    ensures if n == 0 then DepthUpTo(v, n) == 0
            else exists i: nat :: i < n && DepthUpTo(v, n) == Depth(Child(v, i)) + 1
  {
    hide Depth, DepthUpTo;
    if n == 0 {
      DepthUpToAll(v);
    } else {
      DepthUpToStep(v, n - 1);
      DepthUpToIsOverChildren(v, n - 1);
    }
  }

  lemma {:induction false} DepthUpToMonotone(v: Value, n: nat, m: nat)
    requires n <= m <= ChildCount(v)
    ensures DepthUpTo(v, n) <= DepthUpTo(v, m)
    decreases m
  {
    if n == m {
    } else {
      DepthUpToMonotone(v, n, m - 1);
      DepthUpToStep(v, m - 1);
    }
  }

  // ---------------------------------------------------------------- the check of the source

  /**
    `json_depth`: recursion with a loop that stops early. The answer is the true depth cut off one
    past the limit, so comparing it with the limit is exact although deeper nodes are never visited.
    */
  method JsonDepth(value: Value, current: nat) returns (deepest: nat)
    requires current <= MAX_JSON_DEPTH + 1
    ensures deepest == Min(current + Depth(value), MAX_JSON_DEPTH + 1)
    decreases value
  {
    if current > MAX_JSON_DEPTH {
      return current;
    }
    if !IsStructured(value) {
      return current;
    }
    deepest := current;
    DepthUpToAll(value);
    var i: nat := 0;
    while i < ChildCount(value)
      invariant i <= ChildCount(value)
      invariant deepest == Min(current + DepthUpTo(value, i), MAX_JSON_DEPTH + 1) <= MAX_JSON_DEPTH
    {
      DepthUpToStep(value, i);
      var below := JsonDepth(Child(value, i), current + 1);
      deepest := Max(deepest, below);
      i := i + 1;
      if deepest > MAX_JSON_DEPTH {
        DepthUpToMonotone(value, i, ChildCount(value));
        return;
      }
    }
  }

  // ---------------------------------------------------------------- lookups and depth

  lemma {:induction false} MembersDepthConcat(a: seq<Member>, b: seq<Member>)
    ensures MembersDepth(a + b) == Max(MembersDepth(a), MembersDepth(b))
  {
    if b == [] {
      assert a + b == a;
    } else {
      assert (a + b)[..|a + b| - 1] == a + b[..|b| - 1];
      MembersDepthConcat(a, b[..|b| - 1]);
    }
  }

  lemma {:induction false} LookupIsShallower(members: seq<Member>, key: string)
    ensures Lookup(members, key).Some? ==> 1 + Depth(Lookup(members, key).value) <= MembersDepth(members)
  {
    if members == [] {
    } else {
      assert members == [members[0]] + members[1..];
      MembersDepthConcat([members[0]], members[1..]);
      assert [members[0]][..0] == [];
      assert MembersDepth([members[0]]) == 1 + Depth(members[0].value);
      LookupIsShallower(members[1..], key);
    }
  }
}
