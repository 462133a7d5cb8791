/** The device links of the ACPI consumers: all that are present are linked, or none is. */
module Consumers {

  const ENXIO := 6
  const EFAULT := 14
  const AE_NOT_FOUND := 5

  datatype Consumer = Consumer(path: string, required: bool, stateless: bool)

  // What the kernel answers for a consumer: the ACPI status of its path, the status of its
  // device (both 0 if found), and whether a link can be made
  datatype Answer = Answer(handle: int, device: int, linkable: bool)

  // A link made, and the consumer it is for
  datatype Link = Link(properties: Consumer, id: nat)

  predicate Absent(c: Consumer, a: Answer) {
    a.handle == AE_NOT_FOUND && !c.required
  }

  /** The error a consumer causes, 0 if none. */
  function ErrorOf(c: Consumer, a: Answer): int {
    if Absent(c, a) then 0
    else if a.handle != 0 then -ENXIO
    else if a.device != 0 then a.device
    else if !a.linkable then -EFAULT
    else 0
  }

  function FirstError(cons: seq<Consumer>, answers: seq<Answer>): int
    requires |cons| == |answers|
  {
    if cons == [] then 0
    else
      var e := ErrorOf(cons[0], answers[0]);
      if e != 0 then e else FirstError(cons[1..], answers[1..])
  }

  // The consumers actually present, in the order of the table
  function Present(cons: seq<Consumer>, answers: seq<Answer>): (p: seq<Consumer>)
    requires |cons| == |answers|
    ensures |p| <= |cons|
  {
    if cons == [] then []
    else
      var n := |cons| - 1;
      if Absent(cons[n], answers[n]) then Present(cons[..n], answers[..n])
      else Present(cons[..n], answers[..n]) + [cons[n]]
  }

  // The links that nobody but their maker removes
  function Stateless(links: seq<Link>): set<nat> {
    set l <- links | l.properties.stateless :: l.id
  }

  predicate Distinct(links: seq<Link>) {
    forall i, j :: 0 <= i < j < |links| ==> links[i].id != links[j].id
  }

  // The kernel's table of stateless links
  class LinkTable {
    var live: set<nat>
    var next: nat

    ghost predicate Valid()
      reads this
    {
      forall id <- live :: id < next
    }

    constructor ()
      ensures Valid() && live == {}
    {
      live, next := {}, 0;
    }

    method Add(stateless: bool) returns (id: nat)
      requires Valid()
      modifies this
      ensures Valid() && id == old(next) && next == id + 1
      ensures live == old(live) + (if stateless then {id} else {})
    {
      id := next;
      next := next + 1;
      if stateless {
        live := live + {id};
      }
    }

    // Only a link that exists can be deleted.
    method Del(id: nat)
      requires Valid() && id in live
      modifies this`live
      ensures Valid() && live == old(live) - {id}
    {
      live := live - {id};
    }
  }

  class ConsumerLinks {
    var num: nat
    var links: array?<Link>

    ghost predicate Valid()
      reads this, links
    {
      if links == null then num == 0 else num <= links.Length && Distinct(links[..num])
    }

    ghost function Made(): seq<Link>
      reads this, links
      requires Valid()
    {
      if links == null then [] else links[..num]
    }

    constructor ()
      ensures Valid() && Made() == []
    {
      num, links := 0, null;
    }

    /**
     All or nothing: on failure no stateless link made here is left; on success there is one
     link for each consumer present.
     */
    method MakeLinks(cons: seq<Consumer>, answers: seq<Answer>, table: LinkTable) returns (status: int)
      requires |cons| == |answers| && Valid() && table.Valid()
      modifies this, table
      ensures Valid() && table.Valid() && old(table.next) <= table.next
      ensures status == FirstError(cons, answers)
      ensures status != 0 ==> table.live == old(table.live) && num == old(num) && links == old(links)
      ensures status == 0 ==>
        && links != null && fresh(links)
        && num == |Found(cons, answers)|
        && Makes(Made(), Found(cons, answers), old(table.next), table.next)
        && table.live == old(table.live) + Stateless(Made())
    {
      hide FirstError, Present, Stateless;
      var made := new Link[|cons|](_ => Link(Consumer("", false, false), 0));
      var k;
      status, k := CreateLinks(cons, answers, table, made);
      if status != 0 {
        Rollback(made, k, table, old(table.live), old(table.next));
        return;
      }
      SucceedsIffNoError(cons, answers);
      PresentIsFound(cons, answers);
      num := k;
      links := made;
    }

    // Deletes the stateless links, each once.
    method Unlink(table: LinkTable)
      requires Valid() && table.Valid() && Stateless(Made()) <= table.live
      modifies this, table`live
      ensures Valid() && table.Valid() && num == 0 && links == null
      ensures table.live == old(table.live) - Stateless(old(Made()))
    {
      ghost var made := Made();
      var i := 0;
      while i < num
        invariant i <= num && num == |made| && links == old(links) && Valid() && Made() == made && table.Valid()
        invariant table.live == old(table.live) - Stateless(made[..i])
      {
        assert made[..i + 1] == made[..i] + [made[i]];
        if links[i].properties.stateless {
          assert links[i] == made[i] && made[i] in made;
          table.Del(links[i].id);
        }
        i := i + 1;
      }
      assert made[..num] == made;
      num := 0;
      links := null;
    }
  }

  // What has been made: the links for the consumers present, with ids not used before
  ghost predicate Makes(links: seq<Link>, present: seq<Consumer>, first: nat, next: nat) {
    && |links| == |present|
    && (forall j :: 0 <= j < |links| ==> links[j].properties == present[j] && first <= links[j].id < next)
    && Distinct(links)
  }

  // Makes links one by one, until a consumer causes an error.
  method CreateLinks(cons: seq<Consumer>, answers: seq<Answer>, table: LinkTable, made: array<Link>)
    returns (status: int, k: nat)
    requires |cons| == |answers| == made.Length && table.Valid()
    modifies table, made
    ensures table.Valid() && old(table.next) <= table.next && k <= made.Length
    ensures status == FirstError(cons, answers)
    ensures exists n :: 0 <= n <= |cons| && Makes(made[..k], Present(cons[..n], answers[..n]), old(table.next), table.next)
    ensures status == 0 ==> Makes(made[..k], Present(cons, answers), old(table.next), table.next)
    ensures table.live == old(table.live) + Stateless(made[..k])
  {
    hide FirstError, Present, Stateless, Makes;
    k := 0;
    status := 0;
    var i := 0;
    Nothing(cons, answers, made[..0], old(table.next));
    while i < |cons|
      invariant i <= |cons| && k <= i && table.Valid() && old(table.next) <= table.next
      invariant status == 0 && FirstError(cons, answers) == FirstError(cons[i..], answers[i..])
      invariant Makes(made[..k], Present(cons[..i], answers[..i]), old(table.next), table.next)
      invariant table.live == old(table.live) + Stateless(made[..k])
    {
      var c, a := cons[i], answers[i];
      NextConsumer(cons, answers, i);
      if a.handle != 0 {
        if c.required || a.handle != AE_NOT_FOUND {
          status := -ENXIO;
          break;
        }
      } else if a.device != 0 {
        status := a.device;
        break;
      } else if !a.linkable {
        status := -EFAULT;
        break;
      } else {
        ghost var before, next := made[..k], table.next;
        var id := table.Add(c.stateless);
        made[k] := Link(c, id);
        assert made[..k + 1] == before + [Link(c, id)];
        OneMore(before, Link(c, id), Present(cons[..i], answers[..i]), old(table.next), next);
        k := k + 1;
      }
      i := i + 1;
    }
    if status == 0 {
      assert cons[..i] == cons && answers[..i] == answers;
      NoMore(cons, answers);
    }
  }

  lemma Nothing(cons: seq<Consumer>, answers: seq<Answer>, links: seq<Link>, next: nat)
    requires |cons| == |answers| && links == []
    ensures cons[0..] == cons && answers[0..] == answers && cons[..0] == [] && answers[..0] == []
    ensures Makes(links, Present([], []), next, next) && Stateless(links) == {}
  {
  }

  lemma NoMore(cons: seq<Consumer>, answers: seq<Answer>)
    requires |cons| == |answers|
    ensures cons[|cons|..] == [] && answers[|cons|..] == [] && FirstError([], []) == 0
  {
  }

  lemma NextConsumer(cons: seq<Consumer>, answers: seq<Answer>, i: nat)
    requires i < |cons| == |answers|
    ensures var e := ErrorOf(cons[i], answers[i]);
      && FirstError(cons[i..], answers[i..]) == (if e != 0 then e else FirstError(cons[i + 1..], answers[i + 1..]))
      && Present(cons[..i + 1], answers[..i + 1])
         == (if Absent(cons[i], answers[i]) then Present(cons[..i], answers[..i])
             else Present(cons[..i], answers[..i]) + [cons[i]])
  {
    assert cons[i..][1..] == cons[i + 1..] && answers[i..][1..] == answers[i + 1..];
    assert cons[..i + 1][..i] == cons[..i] && answers[..i + 1][..i] == answers[..i];
  }

  lemma OneMore(links: seq<Link>, l: Link, present: seq<Consumer>, first: nat, next: nat)
    requires Makes(links, present, first, next) && l.id == next >= first
    ensures Makes(links + [l], present + [l.properties], first, next + 1)
    ensures Stateless(links + [l]) == Stateless(links) + (if l.properties.stateless then {l.id} else {})
  {
  }

  // Deletes the stateless ones of the first n links, last one first.
  method Rollback(made: array<Link>, n: nat, table: LinkTable, ghost before: set<nat>, ghost first: nat)
    requires n <= made.Length && table.Valid()
    requires exists present :: Makes(made[..n], present, first, table.next)
    requires table.live == before + Stateless(made[..n]) && forall id <- before :: id < first
    modifies table`live
    ensures table.Valid() && table.live == before
  {
    var k := n;
    while k > 0
      invariant 0 <= k <= n && table.Valid()
      invariant table.live == before + Stateless(made[..k])
    {
      k := k - 1;
      assert made[..k + 1] == made[..k] + [made[k]];
      if made[k].properties.stateless {
        assert made[k] in made[..k + 1];
        table.Del(made[k].id);
      }
    }
  }

  /** Linking and unlinking leaves the table of links as it was, whatever the kernel answers. */
  method LinkThenUnlink(cons: seq<Consumer>, answers: seq<Answer>, table: LinkTable) returns (status: int)
    requires |cons| == |answers| && table.Valid()
    modifies table
    ensures table.Valid() && table.live == old(table.live)
    ensures status == FirstError(cons, answers)
  {
    var links := new ConsumerLinks();
    status := links.MakeLinks(cons, answers, table);
    if status == 0 {
      links.Unlink(table);
    }
  }

  /** Linking succeeds exactly if no consumer causes an error. */
  lemma {:induction false} SucceedsIffNoError(cons: seq<Consumer>, answers: seq<Answer>)
    requires |cons| == |answers|
    ensures FirstError(cons, answers) == 0 <==> forall i :: 0 <= i < |cons| ==> ErrorOf(cons[i], answers[i]) == 0
  {
    if cons != [] {
      SucceedsIffNoError(cons[1..], answers[1..]);
      assert forall i :: 0 < i < |cons| ==> cons[i] == cons[1..][i - 1] && answers[i] == answers[1..][i - 1];
    }
  }

  // The consumers whose path was found, in the order of the table
  function Found(cons: seq<Consumer>, answers: seq<Answer>): seq<Consumer>
    requires |cons| == |answers|
  {
    if cons == [] then []
    else
      var n := |cons| - 1;
      Found(cons[..n], answers[..n]) + (if answers[n].handle == 0 then [cons[n]] else [])
  }

  /**
   The status of linking. It is 0 exactly if each consumer is found and can be linked, or is
   not required and reported as not found (5). Otherwise the first one that is neither gives
   the status: -6 if its path was not found or the lookup failed, the error of its device,
   or -14 if no link could be made.
   */
  lemma {:induction false} LinkStatus(cons: seq<Consumer>, answers: seq<Answer>) returns (i: nat)
    requires |cons| == |answers|
    ensures i <= |cons|
    ensures forall k :: 0 <= k < i ==>
      (answers[k].handle == 5 && !cons[k].required) || (answers[k].handle == 0 && answers[k].device == 0 && answers[k].linkable)
    ensures i == |cons| ==> FirstError(cons, answers) == 0
    ensures i < |cons| ==>
      && (answers[i].handle != 5 || cons[i].required)
      && (answers[i].handle != 0 || answers[i].device != 0 || !answers[i].linkable)
      && FirstError(cons, answers) != 0
      && FirstError(cons, answers) == (if answers[i].handle != 0 then -6
                                       else if answers[i].device != 0 then answers[i].device
                                       else -14)
    decreases |cons|
  {
    if cons == [] || ErrorOf(cons[0], answers[0]) != 0 {
      i := 0;
    } else {
      var j := LinkStatus(cons[1..], answers[1..]);
      i := j + 1;
      assert forall k :: 0 < k < |cons| ==> cons[k] == cons[1..][k - 1] && answers[k] == answers[1..][k - 1];
    }
  }

  /** When linking succeeds, the consumers that are linked are those whose path was found. */
  lemma {:induction false} PresentIsFound(cons: seq<Consumer>, answers: seq<Answer>)
    requires |cons| == |answers|
    requires forall k :: 0 <= k < |cons| ==> ErrorOf(cons[k], answers[k]) == 0
    ensures Present(cons, answers) == Found(cons, answers)
    decreases |cons|
  {
    if cons != [] {
      PresentIsFound(cons[..|cons| - 1], answers[..|cons| - 1]);
    }
  }
}
