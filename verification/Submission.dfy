/** Submitting bios from within the submission of a bio: generic_make_request turns what would be a
recursion through stacked devices into a loop over a list. */
module Submission {

  /** A bio, whether it passes the checks, and the bios that handling it submits in turn. */
  datatype Bio = Bio(id: int, passes: bool, children: seq<Bio>)

  // --- what direct recursion would do ---

  /** The bios handled, parents before children, if each were handled where it is submitted. */
  ghost function Recursive(bio: Bio): seq<int>
    decreases bio, 0
  {
    if bio.passes then [bio.id] + RecursiveAll(bio.children) else []
  }

  ghost function RecursiveAll(bios: seq<Bio>): seq<int>
    decreases bios, 1
  {
    if bios == [] then [] else RecursiveAll(bios[..|bios| - 1]) + Recursive(bios[|bios| - 1])
  }

  lemma {:induction false} RecursiveAdds(a: seq<Bio>, b: seq<Bio>)
    ensures RecursiveAll(a + b) == RecursiveAll(a) + RecursiveAll(b)
    decreases |b|
  {
    hide Recursive;
    if b == [] {
      assert a + b == a;
    } else {
      var front, last := b[..|b| - 1], Recursive(b[|b| - 1]);
      RecursiveAdds(a, front);
      assert (a + b)[..|a + b| - 1] == a + front;
      assert (RecursiveAll(a) + RecursiveAll(front)) + last == RecursiveAll(a) + (RecursiveAll(front) + last);
    }
  }

  // --- what the loop does ---

  ghost function Size(bio: Bio): nat
    decreases bio, 0
  {
    1 + SizeAll(bio.children)
  }

  ghost function SizeAll(bios: seq<Bio>): nat
    decreases bios, 1
  {
    if bios == [] then 0 else SizeAll(bios[..|bios| - 1]) + Size(bios[|bios| - 1])
  }

  lemma {:induction false} SizeAdds(a: seq<Bio>, b: seq<Bio>)
    ensures SizeAll(a + b) == SizeAll(a) + SizeAll(b)
    decreases |b|
  {
    if b == [] {
      assert a + b == a;
    } else {
      SizeAdds(a, b[..|b| - 1]);
      assert (a + b)[..|a + b| - 1] == a + b[..|b| - 1];
    }
  }

  /** The bios that pass the checks, in order. */
  ghost function Passing(bios: seq<Bio>): seq<Bio> {
    if bios == [] then [] else Passing(bios[..|bios| - 1]) + if bios[|bios| - 1].passes then [bios[|bios| - 1]] else []
  }

  lemma One(bio: Bio)
    ensures RecursiveAll([bio]) == Recursive(bio) && SizeAll([bio]) == Size(bio)
  {
    assert [bio][..0] == [];
    assert RecursiveAll([bio]) == RecursiveAll([]) + Recursive(bio);
  }

  /** Bios that do not pass would not be handled by the recursion either. */
  lemma {:induction false} PassingSame(bios: seq<Bio>)
    ensures SizeAll(Passing(bios)) <= SizeAll(bios) && RecursiveAll(Passing(bios)) == RecursiveAll(bios)
    decreases |bios|
  {
    hide RecursiveAll, SizeAll;
    if bios == [] {
    } else {
      var front, last := bios[..|bios| - 1], bios[|bios| - 1];
      assert bios == front + [last];
      PassingSame(front);
      One(last);
      SizeAdds(front, [last]);
      RecursiveAdds(front, [last]);
      SizeAdds(Passing(front), [last]);
      RecursiveAdds(Passing(front), [last]);
      assert Passing(bios) == if last.passes then Passing(front) + [last] else Passing(front);
    }
  }

  lemma {:induction false} PassingAll(bios: seq<Bio>)
    ensures forall b :: b in Passing(bios) ==> b.passes
    decreases |bios|
  {
    if bios != [] {
      PassingAll(bios[..|bios| - 1]);
    }
  }

  /** What is left to do shrinks when the first bio is handled and its children join the list. */
  lemma Shrinks(queue: seq<Bio>)
    requires queue != []
    ensures SizeAll(queue[1..] + Passing(queue[0].children)) < SizeAll(queue)
  {
    var b := queue[0];
    SizeAdds(queue[1..], Passing(b.children));
    PassingSame(b.children);
    assert queue == [b] + queue[1..];
    SizeAdds([b], queue[1..]);
    One(b);
  }

  /** The bios handled when each is taken from the front of the list and its children join at the end. */
  ghost function Looped(queue: seq<Bio>): seq<int>
    decreases SizeAll(queue)
  {
    if queue == [] then []
    else
      Shrinks(queue);
      [queue[0].id] + Looped(queue[1..] + Passing(queue[0].children))
  }

  /** The loop handles the same bios as the recursion, each as often. */
  lemma {:induction false} SameBios(queue: seq<Bio>)
    requires forall b :: b in queue ==> b.passes
    ensures multiset(Looped(queue)) == multiset(RecursiveAll(queue))
    decreases SizeAll(queue)
  {
    hide RecursiveAll, SizeAll, Passing;
    if queue == [] {
      NoBios();
    } else {
      var b, rest, more := queue[0], queue[1..], Passing(queue[0].children);
      Shrinks(queue);
      PassingAll(b.children);
      SameBios(rest + more);
      PassingSame(b.children);
      RecursiveAdds(rest, more);
      assert queue == [b] + rest;
      RecursiveAdds([b], rest);
      One(b);
      var r, m := RecursiveAll(rest), RecursiveAll(more);
      assert RecursiveAll(queue) == [b.id] + m + r && Looped(queue) == [b.id] + Looped(rest + more);
      assert multiset(Looped(queue)) == multiset{b.id} + multiset(r + m);
    }
  }

  lemma NoBios()
    ensures RecursiveAll([]) == [] && Looped([]) == []
  {
  }

  // --- a process with its list of bios ---

  datatype BioList = NoList | List(bios: seq<Bio>)

  class Task {
    /** current->bio_list: set exactly while make_request functions are being called. */
    var bioList: BioList
    var active: int
    /** The bios handed to make_request functions, in order. */
    var handled: seq<int>
    /** The bios accepted by the checks, in order. */
    ghost var accepted: seq<int>

    constructor ()
      ensures Valid() && bioList == NoList && handled == []
    {
      bioList, active, handled, accepted := NoList, 0, [], [];
    }

    /** Without a list no function is active and all accepted bios are handled; otherwise those on the list are
        still to be handled, in the order in which they were accepted. */
    ghost predicate Valid()
      reads this
    {
      if bioList == NoList then active == 0 && accepted == handled
      else 0 <= active <= 1 && accepted == handled + Ids(bioList.bios)
    }

    /** generic_make_request from within a make_request function: a bio only joins the list. */
    method Join(bio: Bio)
      requires Valid() && bioList.List?
      modifies this`bioList, this`accepted
      ensures Valid() && bioList == List(old(bioList.bios) + Passing([bio]))
    {
      assert [bio][..0] == [];
      assert Passing([bio]) == Passing([]) + if bio.passes then [bio] else [];
      if bio.passes {
        accepted := accepted + [bio.id];
        bioList := List(bioList.bios + [bio]);
      }
    }

    /** A make_request function: no other is active, and it submits the children of its bio. */
    method MakeRequest(bio: Bio)
      requires bioList.List? && active == 0 && accepted == handled + [bio.id] + Ids(bioList.bios)
      modifies this
      ensures Valid() && active == 0 && handled == old(handled) + [bio.id]
      ensures bioList == List(old(bioList.bios) + Passing(bio.children))
    {
      active := active + 1;
      handled := handled + [bio.id];
      ghost var list := bioList.bios;
      var i := 0;
      assert list + Passing(bio.children[..0]) == list;
      while i < |bio.children|
        invariant 0 <= i <= |bio.children| && Valid() && active == 1 && handled == old(handled) + [bio.id]
        invariant bioList == List(list + Passing(bio.children[..i]))
      {
        PassingNext(bio.children, i);
        Join(bio.children[i]);
        i := i + 1;
      }
      assert bio.children[..i] == bio.children;
      active := active - 1;
    }

    /** generic_make_request outside any make_request function. */
    method Submit(bio: Bio)
      requires Valid() && bioList == NoList
      modifies this
      ensures Valid() && bioList == NoList
      ensures handled == old(handled) + Looped(Passing([bio])) && multiset(handled) == old(multiset(handled)) + multiset(Recursive(bio))
    {
      hide Looped, Passing, SizeAll, Ids;
      NoIds();
      PassingOne(bio);
      if !bio.passes {
        return;
      }
      SameBios([bio]);
      One(bio);
      accepted := accepted + [bio.id];
      bioList := List([]);
      assert [bio] + [] == [bio];
      HandleAll(bio);
    }

    /** The loop of generic_make_request: handles the bio and then the list until it is empty. */
    method HandleAll(bio: Bio)
      requires bioList.List? && active == 0 && accepted == handled + [bio.id] + Ids(bioList.bios)
      modifies this
      ensures Valid() && bioList == NoList && handled == old(handled) + old(Looped([bio] + bioList.bios))
    {
      hide Looped, Passing, SizeAll, Ids;
      NoIds();
      var b := bio;
      ghost var done: seq<int> := [];
      while true
        invariant bioList.List? && active == 0 && accepted == handled + [b.id] + Ids(bioList.bios) && handled == old(handled) + done
        invariant done + Looped([b] + bioList.bios) == old(Looped([bio] + bioList.bios))
        decreases SizeAll([b] + bioList.bios)
      {
        ghost var queue := [b] + bioList.bios;
        assert queue[1..] == bioList.bios;
        LoopedFirst(queue);
        MakeRequest(b);
        assert done + ([b.id] + Looped(bioList.bios)) == done + [b.id] + Looped(bioList.bios);
        done := done + [b.id];
        if bioList.bios == [] {
          break;
        }
        var next, rest := bioList.bios[0], bioList.bios[1..];
        IdsFirst(bioList.bios);
        assert handled + ([next.id] + Ids(rest)) == handled + [next.id] + Ids(rest);
        assert bioList.bios == [next] + rest;
        b, bioList := next, List(rest);
      }
      bioList := NoList;
    }
  }

  ghost function Ids(bios: seq<Bio>): (r: seq<int>)
    ensures |r| == |bios| && forall i :: 0 <= i < |r| ==> r[i] == bios[i].id
  {
    seq(|bios|, i requires 0 <= i < |bios| => bios[i].id)
  }

  lemma IdsFirst(bios: seq<Bio>)
    requires bios != []
    ensures Ids(bios) == [bios[0].id] + Ids(bios[1..])
  {
  }

  lemma NoIds()
    ensures Ids([]) == []
  {
  }

  lemma PassingNext(bios: seq<Bio>, i: nat)
    requires i < |bios|
    ensures Passing(bios[..i + 1]) == Passing(bios[..i]) + Passing([bios[i]])
  {
    assert bios[..i + 1][..i] == bios[..i] && [bios[i]][..0] == [];
    assert Passing([bios[i]]) == Passing([]) + if bios[i].passes then [bios[i]] else [];
  }

  lemma PassingOne(bio: Bio)
    ensures Passing([bio]) == if bio.passes then [bio] else []
    ensures !bio.passes ==> Looped(Passing([bio])) == [] == Recursive(bio)
  {
    assert [bio][..0] == [];
    assert Passing([bio]) == Passing([]) + if bio.passes then [bio] else [];
  }

  lemma LoopedFirst(queue: seq<Bio>)
    requires queue != []
    ensures var next := queue[1..] + Passing(queue[0].children);
            && Looped(queue) == [queue[0].id] + Looped(next) && SizeAll(next) < SizeAll(queue) && (next == [] ==> Looped(next) == [])
  {
    Shrinks(queue);
  }
}
