/** What the builder takes from the text: the strings and keys of a tree all come from its actions, each
    action gives at most one, and no action gives one twice. */
module JsonWeights {
  import opened Json
  import opened Builder

  /** The sum of a weight over the strings and the keys of a value. */
  function Weight(v: Value, w: string -> nat): nat
  {
    match v
    case String(x) => w(x)
    case Array(items) => ItemsWeight(items, w)
    case Object(members) => MembersWeight(members, w)
    case _ => 0
  }

  function ItemsWeight(items: seq<Value>, w: string -> nat): nat
  {
    if items == [] then 0 else Weight(items[0], w) + ItemsWeight(items[1..], w)
  }

  function MembersWeight(members: seq<Member>, w: string -> nat): nat
  {
    if members == [] then 0
    else w(members[0].key) + Weight(members[0].value, w) + MembersWeight(members[1..], w)
  }

  function EventWeight(e: Event, w: string -> nat): nat
  {
    match e
    case StringValue(x) => w(x)
    case ObjectItem(key) => w(key)
    case _ => 0
  }

  function EventsWeight(es: seq<Event>, w: string -> nat): nat
  {
    if es == [] then 0 else EventWeight(es[0], w) + EventsWeight(es[1..], w)
  }

  lemma {:induction false} ItemsPut(items: seq<Value>, i: nat, x: Value, w: string -> nat)
    requires i < |items|
    ensures ItemsWeight(items[i := x], w) + Weight(items[i], w) == ItemsWeight(items, w) + Weight(x, w)
  {
    if i == 0 {
      assert items[i := x][1..] == items[1..];
    } else {
      assert items[i := x][1..] == items[1..][i - 1 := x];
      ItemsPut(items[1..], i - 1, x, w);
    }
  }

  lemma {:induction false} ItemsGrow(items: seq<Value>, x: Value, w: string -> nat)
    ensures ItemsWeight(items + [x], w) == ItemsWeight(items, w) + Weight(x, w)
  {
    if items == [] {
      assert items + [x] == [x] && [x][1..] == [];
    } else {
      assert (items + [x])[1..] == items[1..] + [x];
      ItemsGrow(items[1..], x, w);
    }
  }

  lemma {:induction false} MembersPut(ms: seq<Member>, k: string, x: Value, w: string -> nat)
    requires HasKey(ms, k)
    ensures MembersWeight(Replace(ms, k, x), w) + Weight(Lookup(ms, k), w) == MembersWeight(ms, w) + Weight(x, w)
  {
    if ms[0].key == k {
      assert Replace(ms, k, x)[1..] == ms[1..];
    } else {
      assert Replace(ms, k, x)[1..] == Replace(ms[1..], k, x);
      MembersPut(ms[1..], k, x, w);
    }
  }

  lemma {:induction false} MembersGrow(ms: seq<Member>, k: string, x: Value, w: string -> nat)
    ensures MembersWeight(Insert(ms, k, x), w) <= MembersWeight(ms, w) + w(k) + Weight(x, w)
  {
    if ms == [] || ms[0].key == k || Less(k, ms[0].key) {
      assert Insert(ms, k, x)[1..] == if ms != [] && ms[0].key == k then ms[1..] else ms;
    } else {
      assert Insert(ms, k, x)[1..] == Insert(ms[1..], k, x);
      MembersGrow(ms[1..], k, x, w);
    }
  }

  /** Writing at a place exchanges what was there for what is written. */
  lemma {:induction false} SetExchanges(v: Value, path: seq<Step>, x: Value, w: string -> nat)
    requires Reaches(v, path)
    ensures Weight(Set(v, path, x), w) + Weight(Get(v, path), w) == Weight(v, w) + Weight(x, w)
    decreases path
  {
    if path != [] {
      var c := Child(v, path[0]);
      var y := Set(c, path[1..], x);
      SetExchanges(c, path[1..], x, w);
      match path[0]
      case At(i) => ItemsPut(v.items, i, y, w);
      case Of(k) => MembersPut(v.members, k, y, w);
    }
  }

  lemma ItemAdds(b: Build, w: string -> nat)
    requires Reaches(b.root, b.path) && Apply(b, ArrayItem).Built?
    ensures Weight(Apply(b, ArrayItem).build.root, w) <= Weight(b.root, w)
  {
    var here := Get(b.root, b.path);
    ItemsGrow(here.items, Null, w);
    SetExchanges(b.root, b.path, Array(here.items + [Null]), w);
  }

  lemma KeyAdds(b: Build, k: string, w: string -> nat)
    requires Reaches(b.root, b.path) && Apply(b, ObjectItem(k)).Built?
    ensures Weight(Apply(b, ObjectItem(k)).build.root, w) <= Weight(b.root, w) + w(k)
  {
    var here := Get(b.root, b.path);
    MembersGrow(here.members, k, Null, w);
    SetExchanges(b.root, b.path, Object(Insert(here.members, k, Null)), w);
  }

  lemma ActionAdds(b: Build, e: Event, w: string -> nat)
    requires Reaches(b.root, b.path) && Apply(b, e).Built?
    ensures Weight(Apply(b, e).build.root, w) <= Weight(b.root, w) + EventWeight(e, w)
  {
    match e
    case ArrayItem => ItemAdds(b, w);
    case ObjectItem(k) => KeyAdds(b, k, w);
    case ArrayEnd =>
    case ObjectEnd =>
    case ArrayBegin => SetExchanges(b.root, b.path, Array([]), w);
    case ObjectBegin => SetExchanges(b.root, b.path, Object([]), w);
    case _ => SetExchanges(b.root, b.path, Written(e), w);
  }

  /** Whatever the actions and their order, the strings and keys in the tree weigh no more than those
      that the actions were given. */
  lemma {:induction false} RunsAdd(b: Build, es: seq<Event>, w: string -> nat)
    requires Reaches(b.root, b.path) && Replay(b, es).Built?
    ensures Weight(Replay(b, es).build.root, w) <= Weight(b.root, w) + EventsWeight(es, w)
    decreases es
  {
    if es != [] {
      ApplyReaches(b, es[0]);
      ActionAdds(b, es[0], w);
      RunsAdd(Apply(b, es[0]).build, es[1..], w);
    }
  }
}
