/**
 * JSON values as Python's `json.loads` returns them: `None`, `bool`, `int`, `float`, `str`,
 * `list` and `dict`. An object keeps its members in order; a parsed object never repeats a key.
 */
module Json {
  import opened Wrappers

  datatype Json =
    | Null
    | Bool(b: bool)
    | Int(i: int)
    | Float(r: real)
    | Str(s: string)
    | Arr(items: seq<Json>)
    | Obj(members: seq<Member>)

  datatype Member = Member(key: string, value: Json)

  /** Python's `type(x)`, which tells `bool`, `int` and `float` apart. */
  datatype TypeTag = NoneType | BoolType | IntType | FloatType | StrType | ListType | DictType

  function TypeOf(j: Json): TypeTag {
    match j
    case Null => NoneType
    case Bool(_) => BoolType
    case Int(_) => IntType
    case Float(_) => FloatType
    case Str(_) => StrType
    case Arr(_) => ListType
    case Obj(_) => DictType
  }

  /** `isinstance(x, (dict, list))`. */
  predicate IsContainer(j: Json) { j.Arr? || j.Obj? }

  function KeysOf(members: seq<Member>): (ks: seq<string>)
    ensures |ks| == |members| && forall i :: 0 <= i < |members| ==> ks[i] == members[i].key
  {
    if members == [] then [] else [members[0].key] + KeysOf(members[1..])
  }

  /** `obj[key]` when `key in obj`. */
  function Lookup(members: seq<Member>, key: string): (r: Option<Json>)
    ensures r.None? <==> key !in KeysOf(members)
  {
    if members == [] then None
    else if members[0].key == key then Some(members[0].value)
    else Lookup(members[1..], key)
  }

  predicate DistinctKeys(members: seq<Member>) {
    forall i, j :: 0 <= i < j < |members| ==> members[i].key != members[j].key
  }

  // ---------------------------------------------------------------- pre-order

  /** Every node of the tree in pre-order: the node, then the nodes of its children from left to right. */
  function Nodes(j: Json): (r: seq<Json>)
    ensures |r| >= 1 && r[0] == j
    decreases j, 1
  {
    match j
    case Arr(items) => [j] + ItemsNodes(items)
    case Obj(members) => [j] + MembersNodes(members)
    case _ => [j]
  }

  function ItemsNodes(items: seq<Json>): seq<Json>
    decreases items, 0
  {
    if items == [] then [] else Nodes(items[0]) + ItemsNodes(items[1..])
  }

  function MembersNodes(members: seq<Member>): seq<Json>
    decreases members, 0
  {
    if members == [] then [] else Nodes(members[0].value) + MembersNodes(members[1..])
  }

  /** What `json.loads` can return: no object in the tree repeats a key. */
  predicate Parsed(j: Json) {
    forall n :: n in Nodes(j) && n.Obj? ==> DistinctKeys(n.members)
  }

  /** The nodes of a list item are nodes of the list. */
  lemma {:induction false} ItemsNodesInclude(items: seq<Json>, k: nat)
    requires k < |items|
    ensures forall n :: n in Nodes(items[k]) ==> n in ItemsNodes(items)
  {
    if k > 0 {
      ItemsNodesInclude(items[1..], k - 1);
      assert items[1..][k - 1] == items[k];
    }
  }

  /** The nodes of a member's value are nodes of the object. */
  lemma {:induction false} MembersNodesInclude(members: seq<Member>, k: nat)
    requires k < |members|
    ensures forall n :: n in Nodes(members[k].value) ==> n in MembersNodes(members)
  {
    if k > 0 {
      MembersNodesInclude(members[1..], k - 1);
      assert members[1..][k - 1] == members[k];
    }
  }

  /** The children of a parsed tree are parsed trees. */
  lemma ParsedItem(items: seq<Json>, k: nat)
    requires Parsed(Arr(items)) && k < |items|
    ensures Parsed(items[k])
  {
    ItemsNodesInclude(items, k);
  }

  lemma ParsedMember(members: seq<Member>, k: nat)
    requires Parsed(Obj(members)) && k < |members|
    ensures Parsed(members[k].value)
  {
    MembersNodesInclude(members, k);
  }

  /** The number of arrays in a list of nodes. */
  function ArrayCount(ns: seq<Json>): nat {
    if ns == [] then 0 else (if ns[0].Arr? then 1 else 0) + ArrayCount(ns[1..])
  }

  lemma {:induction false} ArrayCountAppend(a: seq<Json>, b: seq<Json>)
    ensures ArrayCount(a + b) == ArrayCount(a) + ArrayCount(b)
  {
    if a != [] {
      assert (a + b)[1..] == a[1..] + b;
      ArrayCountAppend(a[1..], b);
    } else {
      assert a + b == b;
    }
  }
}
