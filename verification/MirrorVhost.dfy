/** Which mirror instance a connection lands on: the per-vhost instance list of
    `plugins/protocol_lws_mirror.c`. */
module MirrorVhost {
  import opened MirrorSpec
  import opened Mirror

  const MAX_MIRROR_INSTANCES := 3

  /** lws_snprintf() into `name[30]` with the size given as 29: 28 characters and a NUL */
  const STORED_NAME := 28

  function Stored(name: string): (s: string)
    ensures |s| <= STORED_NAME
    ensures s <= name
    ensures s == name <==> |name| <= STORED_NAME
  {
    if |name| <= STORED_NAME then name else name[..STORED_NAME]
  }

  datatype Placement = Existing(index: nat) | New | Refused

  /** The first instance of exactly this name, else a new one if the limit allows. */
  function Place(names: seq<string>, name: string): (p: Placement)
    ensures p.Existing? ==> p.index < |names| && names[p.index] == name && name !in names[..p.index]
    ensures name in names <==> p.Existing?
    ensures p == Refused <==> name !in names && |names| == MAX_MIRROR_INSTANCES
  {
    PlaceFrom(names, name, 0)
  }

  function PlaceFrom(names: seq<string>, name: string, from: nat): (p: Placement)
    requires from <= |names| && name !in names[..from]
    ensures p.Existing? ==> p.index < |names| && names[p.index] == name && name !in names[..p.index]
    ensures name in names <==> p.Existing?
    ensures p == Refused <==> name !in names && |names| == MAX_MIRROR_INSTANCES
    decreases |names| - from
  {
    if from == |names| then
      assert names[..from] == names;
      if |names| == MAX_MIRROR_INSTANCES then Refused else New
    else if names[from] == name then Existing(from)
    else
      assert names[..from + 1] == names[..from] + [names[from]];
      PlaceFrom(names, name, from + 1)
  }

  /** Once an instance has been made for a name, the next connection giving that name finds it if and
      only if the name was short enough to be stored whole. */
  lemma SecondConnectionSharesIffNameIsStored(names: seq<string>, name: string)
    requires Place(names, name) == New
    requires forall i :: 0 <= i < |names| ==> |names[i]| <= STORED_NAME
    ensures Place([Stored(name)] + names, name) == Existing(0) <==> |name| <= STORED_NAME
    ensures |name| > STORED_NAME ==> !Place([Stored(name)] + names, name).Existing?
  {
    var names' := [Stored(name)] + names;
    if |name| <= STORED_NAME {
      assert names'[0] == name;
      assert PlaceFrom(names', name, 0) == Existing(0);
    }
  }

  /** Three connections under one over-long name fill the vhost with look-alike instances, and the fourth
      is turned away. */
  lemma OverlongNameExhaustsTheVhost(name: string)
    requires |name| > STORED_NAME
    ensures var s := Stored(name);
            && Place([], name) == New
            && Place([s], name) == New
            && Place([s, s], name) == New
            && Place([s, s, s], name) == Refused
  {
    var s := Stored(name);
    assert name !in [s] && name !in [s, s] && name !in [s, s, s];
  }

  class Vhost {
    var instances: seq<Instance>

    ghost predicate Valid()
      reads this, instances
      reads set m | m in instances :: m.ring
      reads set m | m in instances :: m.ring.buf
    {
      && |instances| <= MAX_MIRROR_INSTANCES
      && (forall m :: m in instances ==> m.Valid() && |m.name| <= STORED_NAME)
      && (forall i, j :: 0 <= i < j < |instances| ==> instances[i] != instances[j])
      && (forall m, n :: m in instances && n in instances && m != n ==> m.ring != n.ring && m.ring.buf != n.ring.buf)
    }

    ghost function Names(): (names: seq<string>)
      reads this
    {
      var all := instances;
      seq(|all|, i requires 0 <= i < |all| => all[i].name)
    }

    method Find(name: string) returns (p: Placement)
      ensures p == Place(Names(), name)
    {
      ghost var names := Names();
      var i := 0;
      while i < |instances|
        invariant 0 <= i <= |instances|
        invariant name !in names[..i]
        invariant Place(names, name) == PlaceFrom(names, name, i)
      {
        if instances[i].name == name {
          return Existing(i);
        }
        assert names[..i + 1] == names[..i] + [names[i]];
        i := i + 1;
      }
      p := if i == MAX_MIRROR_INSTANCES then Refused else New;
    }

    method JoinExisting(index: nat, id: nat)
      requires Valid() && index < |instances|
      requires forall i :: 0 <= i < |instances[index].list| ==> instances[index].list[i].id != id
      modifies instances[index]
      ensures Valid()
      ensures instances[index].hub == Join(old(instances[index].hub), id)
    {
      instances[index].Established(id);
    }

    method CreateAndJoin(name: string, id: nat)
      requires Valid() && |instances| < MAX_MIRROR_INSTANCES
      modifies this
      ensures Valid()
      ensures |instances| == |old(instances)| + 1 && instances[1..] == old(instances)
      ensures fresh(instances[0])
      ensures instances[0].name == Stored(name) && instances[0].hub == Join(Fresh, id)
    {
      var mi := new Instance(Stored(name), id);
      instances := [mi] + instances;
    }

    /** LWS_CALLBACK_ESTABLISHED: join the named instance, or create it; -1 if there are too many, 1 if there is
        no memory for it or its ring. */
    method Established(name: string, id: nat, memory: bool) returns (ret: int)
      requires Valid()
      requires forall m, i :: m in instances && 0 <= i < |m.list| ==> m.list[i].id != id
      modifies this, instances
      ensures Valid()
      ensures var p := Place(old(Names()), name);
              && (ret == if p == Refused then -1 else if p == New && !memory then 1 else 0)
              && (ret != 0 ==> instances == old(instances) && forall m :: m in instances ==> unchanged(m))
              && (p.Existing? ==>
                    && instances == old(instances)
                    && instances[p.index].hub == Join(old(instances[p.index].hub), id))
              && (p == New && memory ==>
                    && |instances| == |old(instances)| + 1 && instances[1..] == old(instances)
                    && fresh(instances[0])
                    && instances[0].name == Stored(name) && instances[0].hub == Join(Fresh, id))
      ensures forall m :: m in old(instances) && m.name != name ==> unchanged(m)
    {
      var p := Find(name);
      match p
      case Refused => ret := -1;
      case Existing(index) => JoinExisting(index, id); ret := 0;
      case New =>
        if !memory {
          return 1;
        }
        CreateAndJoin(name, id);
        ret := 0;
    }

    /** The list without one of its instances */
    method Delete(mi: Instance)
      requires mi in instances && forall i, j :: 0 <= i < j < |instances| ==> instances[i] != instances[j]
      modifies this
      ensures forall m :: m in instances <==> m in old(instances) && m != mi
      ensures |instances| == |old(instances)| - 1
      ensures forall i, j :: 0 <= i < j < |instances| ==> instances[i] != instances[j]
    {
      var i := 0;
      while instances[i] != mi
        invariant 0 <= i < |instances|
        invariant mi in instances[i..]
        decreases |instances| - i
      {
        assert instances[i..] == [instances[i]] + instances[i + 1..];
        i := i + 1;
      }
      assert instances == instances[..i] + [mi] + instances[i + 1..];
      instances := instances[..i] + instances[i + 1..];
    }

    /** Whatever one of them is going through, the vhost's other instances are as they should be. */
    ghost predicate OthersValid(mi: Instance)
      reads this
      reads set m | m in instances && m != mi
      reads set m | m in instances && m != mi :: m.ring
      reads set m | m in instances && m != mi :: m.ring.buf
    {
      && |instances| <= MAX_MIRROR_INSTANCES
      && (forall m :: m in instances ==> |m.name| <= STORED_NAME)
      && (forall m :: m in instances && m != mi ==> m.Valid())
      && (forall i, j :: 0 <= i < j < |instances| ==> instances[i] != instances[j])
      && (forall m, n :: m in instances && n in instances && m != n ==> m.ring != n.ring && m.ring.buf != n.ring.buf)
    }

    /** An instance that has lost a session goes if that was the last. */
    method Reap(mi: Instance)
      requires OthersValid(mi) && mi in instances
      requires if mi.hub.readers == [] then mi.list == [] else mi.Valid() && mi.list != []
      modifies this
      ensures Valid()
      ensures forall m :: m in instances <==> m in old(instances) && (m == mi ==> mi.hub.readers != [])
    {
      if mi.list == [] {
        Delete(mi);
      }
    }

    /** LWS_CALLBACK_CLOSED, whether between callbacks or after a failed write: the session leaves its instance, which
        goes away exactly when it was the last; the vhost's other instances are untouched. */
    method Closed(mi: Instance, who: nat)
      requires OthersValid(mi) && mi in instances && mi.Closable() && who < |mi.list|
      modifies this, mi, mi.ring, mi.ring.buf
      ensures Valid()
      ensures mi.hub == Settle(Detach(old(mi.hub), who), old(mi.ring.base))
      ensures old(mi.Valid()) ==> mi.hub == Leave(old(mi.hub), who)
      ensures forall m :: m in instances <==> m in old(instances) && (m == mi ==> mi.hub.readers != [])
      ensures mi.hub.readers == [] ==> mi.ring.retired == mi.hub.log
    {
      mi.Closed(who);
      Reap(mi);
    }

    /** LWS_CALLBACK_SERVER_WRITEABLE, and the LWS_CALLBACK_CLOSED that follows a failed write: that too takes
        the instance away exactly when it was its last session's. */
    method Writeable(mi: Instance, who: nat, budget: nat, failing: nat) returns (ret: int)
      requires Valid() && mi in instances && who < |mi.list| && 1 <= budget
      modifies this, mi, mi.ring, mi.ring.buf
      ensures Valid()
      ensures ret == if failing < budget && failing < Unread(old(mi.hub), who) then -1 else 0
      ensures mi.hub == if ret == -1 then WriteFails(old(mi.hub), who, failing) else Write(old(mi.hub), who, budget)
      ensures forall m :: m in instances <==> m in old(instances) && (m == mi ==> mi.hub.readers != [])
      ensures mi.hub.readers == [] ==> mi.ring.retired == mi.hub.log
    {
      assert OthersValid(mi);
      ret := mi.Writeable(who, budget, failing);
      Reap(mi);
    }
  }
}
