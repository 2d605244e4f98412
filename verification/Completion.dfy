/** Completing a request byte by byte: blk_update_request ends the bios that are done and leaves
the rest of the request as if it had started there. */
module Completion {

  /** A piece of a page that a bio reads or writes. */
  datatype Vec = Vec(page: int, offset: int, len: int)

  /** A bio with its pieces, of which those from idx on are left, its bytes left and its sector. */
  datatype Bio = Bio(id: int, vecs: seq<Vec>, idx: nat, size: int, sector: int)

  ghost function Length(vecs: seq<Vec>): int {
    if vecs == [] then 0 else vecs[0].len + Length(vecs[1..])
  }

  ghost predicate Positive(vecs: seq<Vec>) {
    forall v :: v in vecs ==> v.len > 0
  }

  /** Pieces are left, all of positive length, and the size is theirs. */
  ghost predicate Formed(bio: Bio) {
    bio.idx < |bio.vecs| && Positive(bio.vecs[bio.idx..]) && bio.size == Length(bio.vecs[bio.idx..])
  }

  ghost predicate AllFormed(bios: seq<Bio>) {
    forall i :: 0 <= i < |bios| ==> Formed(bios[i])
  }

  ghost function Total(bios: seq<Bio>): int {
    if bios == [] then 0 else bios[0].size + Total(bios[1..])
  }

  lemma {:induction false} LengthPositive(vecs: seq<Vec>)
    requires Positive(vecs)
    ensures Length(vecs) >= 0 && (vecs != [] ==> Length(vecs) > 0)
    decreases |vecs|
  {
    if vecs != [] {
      LengthPositive(vecs[1..]);
    }
  }

  // --- what is left after n bytes ---

  ghost function DropVecs(vecs: seq<Vec>, n: int): seq<Vec>
    decreases |vecs|
  {
    if vecs == [] || n <= 0 then vecs
    else if n >= vecs[0].len then DropVecs(vecs[1..], n - vecs[0].len)
    else [vecs[0].(offset := vecs[0].offset + n, len := vecs[0].len - n)] + vecs[1..]
  }

  /** What can be seen of a bio: its identity, the pieces left, and its sector. */
  datatype View = View(id: int, vecs: seq<Vec>, sector: int)

  ghost function Seen(bio: Bio): View
    requires bio.idx <= |bio.vecs|
  {
    View(bio.id, bio.vecs[bio.idx..], bio.sector)
  }

  ghost function AllSeen(bios: seq<Bio>): seq<View>
    requires AllFormed(bios)
  {
    if bios == [] then [] else [Seen(bios[0])] + AllSeen(bios[1..])
  }

  /** The request after n bytes: bios that are covered are gone, the next one starts later. */
  ghost function Drop(views: seq<View>, n: int): seq<View>
    decreases |views|
  {
    if views == [] || n <= 0 then views
    else if n >= Length(views[0].vecs) then Drop(views[1..], n - Length(views[0].vecs))
    else [View(views[0].id, DropVecs(views[0].vecs, n), views[0].sector + n / 512)] + views[1..]
  }

  /** The bios that n bytes cover, in order. */
  ghost function Covered(views: seq<View>, n: int): seq<int>
    decreases |views|
  {
    if views == [] || n < Length(views[0].vecs) then [] else [views[0].id] + Covered(views[1..], n - Length(views[0].vecs))
  }

  // --- in terms of bytes ---

  /** The bytes of a piece, by page and offset. */
  ghost function Span(v: Vec): seq<(int, int)>
    requires v.len >= 0
  {
    seq(v.len, i => (v.page, v.offset + i))
  }

  ghost function VecBytes(vecs: seq<Vec>): seq<(int, int)>
    requires Positive(vecs)
  {
    if vecs == [] then []
    else Span(vecs[0]) + VecBytes(vecs[1..])
  }

  ghost predicate AllPositive(views: seq<View>) {
    forall i :: 0 <= i < |views| ==> views[i].vecs != [] && Positive(views[i].vecs)
  }

  ghost function Bytes(views: seq<View>): seq<(int, int)>
    requires AllPositive(views)
  {
    if views == [] then [] else VecBytes(views[0].vecs) + Bytes(views[1..])
  }

  lemma {:induction false} VecBytesLength(vecs: seq<Vec>)
    requires Positive(vecs)
    ensures |VecBytes(vecs)| == Length(vecs)
    decreases |vecs|
  {
    if vecs != [] {
      VecBytesLength(vecs[1..]);
    }
  }

  lemma Slice<T>(a: seq<T>, b: seq<T>, n: int)
    requires 0 <= n <= |a| + |b|
    ensures (a + b)[n..] == if n >= |a| then b[n - |a|..] else a[n..] + b
  {
  }

  lemma {:induction false} DropVecsBytes(vecs: seq<Vec>, n: int)
    requires Positive(vecs) && 0 <= n <= Length(vecs)
    ensures Positive(DropVecs(vecs, n)) && Length(DropVecs(vecs, n)) == Length(vecs) - n && (n < Length(vecs) ==> DropVecs(vecs, n) != [])
    ensures n <= |VecBytes(vecs)| && VecBytes(DropVecs(vecs, n)) == VecBytes(vecs)[n..]
    decreases |vecs|
  {
    VecBytesLength(vecs);
    if vecs != [] && n > 0 {
      var v := vecs[0];
      Slice(Span(v), VecBytes(vecs[1..]), n);
      if n >= v.len {
        DropVecsBytes(vecs[1..], n - v.len);
      } else {
        var w := v.(offset := v.offset + n, len := v.len - n);
        assert ([w] + vecs[1..])[1..] == vecs[1..];
        assert Span(v)[n..] == Span(w);
      }
    }
  }

  lemma DropBytesInFirst(views: seq<View>, n: int)
    requires AllPositive(views) && views != [] && 0 < n < Length(views[0].vecs)
    ensures AllPositive(Drop(views, n))
    ensures n <= |Bytes(views)| && Bytes(Drop(views, n)) == Bytes(views)[n..]
  {
    hide VecBytes, Length, DropVecs, Positive;
    var v := views[0];
    VecBytesLength(v.vecs);
    Slice(VecBytes(v.vecs), Bytes(views[1..]), n);
    DropVecsBytes(v.vecs, n);
    assert Drop(views, n)[1..] == views[1..];
  }

  /** Completing n bytes takes exactly the first n bytes off the request, or all if there are fewer. */
  lemma {:induction false} DropBytes(views: seq<View>, n: int)
    requires AllPositive(views) && n >= 0
    ensures AllPositive(Drop(views, n))
    ensures var b := Bytes(views); Bytes(Drop(views, n)) == if n <= |b| then b[n..] else []
    decreases |views|
  {
    hide VecBytes, Length, DropVecs, Positive;
    if views != [] && n > 0 {
      var v := views[0];
      if n >= Length(v.vecs) {
        VecBytesLength(v.vecs);
        var a, b := VecBytes(v.vecs), Bytes(views[1..]);
        if n <= |a| + |b| {
          Slice(a, b, n);
        }
        DropBytes(views[1..], n - Length(v.vecs));
      } else {
        DropBytesInFirst(views, n);
      }
    }
  }

  // --- in two steps ---

  lemma {:induction false} DropVecsTwice(vecs: seq<Vec>, n: int, m: int)
    requires Positive(vecs) && 0 <= n && 0 <= m && n + m <= Length(vecs)
    ensures DropVecs(DropVecs(vecs, n), m) == DropVecs(vecs, n + m)
    decreases |vecs|
  {
    if vecs != [] && n > 0 && m > 0 {
      var v := vecs[0];
      if n >= v.len {
        DropVecsTwice(vecs[1..], n - v.len, m);
      } else {
        var w := v.(offset := v.offset + n, len := v.len - n);
        assert DropVecs(vecs, n) == [w] + vecs[1..];
        assert ([w] + vecs[1..])[1..] == vecs[1..];
      }
    }
  }

  ghost predicate WholeSectors(views: seq<View>) {
    forall i :: 0 <= i < |views| ==> Length(views[i].vecs) % 512 == 0
  }

  /** The first bio is reached, but not covered. */
  lemma DropInFirst(views: seq<View>, n: int)
    requires AllPositive(views) && views != [] && 0 < n < Length(views[0].vecs)
    ensures var w := View(views[0].id, DropVecs(views[0].vecs, n), views[0].sector + n / 512);
            && Drop(views, n) == [w] + views[1..] && ([w] + views[1..])[1..] == views[1..]
            && Length(w.vecs) == Length(views[0].vecs) - n
  {
    DropVecsBytes(views[0].vecs, n);
  }

  /** Completing n bytes and then m is completing n + m, if bios and the first part are whole sectors. */
  lemma {:induction false} DropTwice(views: seq<View>, n: int, m: int)
    requires AllPositive(views) && WholeSectors(views) && 0 <= n && 0 <= m && n % 512 == 0
    ensures Drop(Drop(views, n), m) == Drop(views, n + m)
    decreases |views|
  {
    hide Length, DropVecs, Positive;
    if views != [] && n > 0 {
      var v := views[0];
      var l := Length(v.vecs);
      if n >= l {
        DropTwice(views[1..], n - l, m);
      } else {
        DropInFirst(views, n);
        if 0 < m < l - n {
          DropVecsTwice(v.vecs, n, m);
          assert n / 512 + m / 512 == (n + m) / 512;
        }
      }
    }
  }

  /** And the bios ended in the two steps are those ended in one. */
  lemma {:induction false} CoveredTwice(views: seq<View>, n: int, m: int)
    requires AllPositive(views) && 0 <= n && 0 <= m
    ensures Covered(views, n) + Covered(Drop(views, n), m) == Covered(views, n + m)
    decreases |views|
  {
    hide Length, DropVecs;
    if views != [] {
      var v := views[0];
      var l := Length(v.vecs);
      LengthPositive(v.vecs);
      if n >= l {
        CoveredTwice(views[1..], n - l, m);
        DropAway(views, n);
      } else if n > 0 {
        DropInFirst(views, n);
      }
    }
  }

  lemma DropAway(views: seq<View>, n: int)
    requires views != [] && n >= Length(views[0].vecs) >= 0
    ensures n > 0 ==> Drop(views, n) == Drop(views[1..], n - Length(views[0].vecs))
  {
  }

  // --- the loop ---

  lemma {:induction false} LengthSplit(vecs: seq<Vec>, k: nat)
    requires k < |vecs|
    ensures Length(vecs[..k + 1]) == Length(vecs[..k]) + vecs[k].len
    decreases k
  {
    if k > 0 {
      LengthSplit(vecs[1..], k - 1);
      assert vecs[..k + 1][1..] == vecs[1..][..k] && vecs[..k][1..] == vecs[1..][..k - 1];
    } else {
      assert vecs[..1] == [vecs[0]] && [vecs[0]][1..] == [];
    }
  }

  /** Dropping whole pieces and a part of the next. */
  lemma {:induction false} DropPrefix(vecs: seq<Vec>, k: nat, m: int)
    requires Positive(vecs) && k < |vecs| && 0 <= m < vecs[k].len
    ensures DropVecs(vecs, Length(vecs[..k]) + m)
            == [vecs[k].(offset := vecs[k].offset + m, len := vecs[k].len - m)] + vecs[k + 1..]
    decreases k
  {
    if k > 0 {
      DropPrefix(vecs[1..], k - 1, m);
      assert vecs[..k][1..] == vecs[1..][..k - 1];
      LengthPositive(vecs[1..][..k - 1]);
    } else {
      assert vecs == [vecs[0]] + vecs[1..];
    }
  }

  ghost function Left(bio: Bio): seq<Vec>
    requires bio.idx <= |bio.vecs|
  {
    bio.vecs[bio.idx..]
  }

  /** Where the loop stands: the bios left, the bytes still to complete, and how far it is into the first bio. */
  ghost predicate Amid(start: seq<View>, nr: int, bios: seq<Bio>, n: int, nextIdx: nat, bioBytes: int, ended: seq<int>) {
    && AllFormed(bios) && n >= 0
    && (bios != [] ==> nextIdx <= |Left(bios[0])| && bioBytes == Length(Left(bios[0])[..nextIdx])
                       && (nextIdx > 0 ==> n + bioBytes < bios[0].size))
    && Drop(AllSeen(bios), n + bioBytes) == Drop(start, nr)
    && ended + Covered(AllSeen(bios), n + bioBytes) == Covered(start, nr)
  }

  lemma AmidStart(bios: seq<Bio>, nr: int)
    requires AllFormed(bios) && nr >= 0
    ensures Amid(AllSeen(bios), nr, bios, nr, 0, 0, [])
  {
    hide AllSeen, Drop, Covered;
    if bios != [] {
      assert Left(bios[0])[..0] == [];
    }
  }

  lemma AmidBio(start: seq<View>, nr: int, bios: seq<Bio>, n: int, nextIdx: nat, bioBytes: int, ended: seq<int>)
    requires Amid(start, nr, bios, n, nextIdx, bioBytes, ended) && bios != [] && n >= bios[0].size
    ensures Amid(start, nr, bios[1..], n - bios[0].size, 0, 0, ended + [bios[0].id])
  {
    var b := bios[0];
    LengthPositive(Left(b)[..nextIdx]);
    assert nextIdx == 0 && bioBytes == 0;
    assert Formed(b);
    LengthPositive(Left(b));
    assert AllSeen(bios)[0] == Seen(b) && AllSeen(bios)[1..] == AllSeen(bios[1..]);
    if |bios| > 1 {
      assert Left(bios[1])[..0] == [];
    }
    assert ended + ([b.id] + Covered(AllSeen(bios[1..]), n - b.size)) == (ended + [b.id]) + Covered(AllSeen(bios[1..]), n - b.size);
  }

  /** Inside a bio there is always a next piece. */
  lemma AmidPiece(start: seq<View>, nr: int, bios: seq<Bio>, n: int, nextIdx: nat, bioBytes: int, ended: seq<int>)
    requires Amid(start, nr, bios, n, nextIdx, bioBytes, ended) && bios != [] && n < bios[0].size
    ensures nextIdx < |Left(bios[0])| && Left(bios[0])[nextIdx].len > 0 && n + bioBytes < bios[0].size
    ensures Left(bios[0])[nextIdx].len <= bios[0].size
  {
    hide AllSeen, Drop, Covered;
    var left := Left(bios[0]);
    assert Formed(bios[0]);
    if nextIdx == 0 {
      assert left[..0] == [];
    }
    assert left[..|left|] == left;
    if nextIdx < |left| {
      LengthSplit(left, nextIdx);
      assert left[nextIdx] in left;
      PrefixLength(left, nextIdx + 1);
      LengthPositive(left[..nextIdx]);
    }
  }

  lemma {:induction false} PrefixLength(vecs: seq<Vec>, k: nat)
    requires Positive(vecs) && k <= |vecs|
    ensures Length(vecs[..k]) <= Length(vecs)
    decreases k
  {
    LengthPositive(vecs);
    if k > 0 {
      PrefixLength(vecs[1..], k - 1);
      assert vecs[..k][1..] == vecs[1..][..k - 1];
    } else {
      assert vecs[..0] == [];
    }
  }

  lemma AmidNext(start: seq<View>, nr: int, bios: seq<Bio>, n: int, nextIdx: nat, bioBytes: int, ended: seq<int>)
    requires Amid(start, nr, bios, n, nextIdx, bioBytes, ended) && bios != [] && n < bios[0].size
    requires nextIdx < |Left(bios[0])| && Left(bios[0])[nextIdx].len <= n
    ensures var l := Left(bios[0])[nextIdx].len; Amid(start, nr, bios, n - l, nextIdx + 1, bioBytes + l, ended)
  {
    hide AllSeen, Drop, Covered;
    AmidPiece(start, nr, bios, n, nextIdx, bioBytes, ended);
    LengthSplit(Left(bios[0]), nextIdx);
  }

  /** The first bio as the code leaves it. */
  ghost function Advanced(b: Bio, nextIdx: nat, n: int, bytes: int): Bio
    requires b.idx + nextIdx < |b.vecs|
  {
    var i := b.idx + nextIdx;
    Bio(b.id, b.vecs[i := b.vecs[i].(offset := b.vecs[i].offset + n, len := b.vecs[i].len - n)], i, b.size - bytes, b.sector + bytes / 512)
  }

  lemma AdvancedFormed(a: Bio, nextIdx: nat, n: int, bioBytes: int)
    requires Formed(a) && nextIdx < |Left(a)| && 0 <= n < Left(a)[nextIdx].len
    requires bioBytes == Length(Left(a)[..nextIdx]) && bioBytes + n < a.size
    ensures var b := Advanced(a, nextIdx, n, bioBytes + n);
            && Formed(b) && Seen(b) == View(a.id, DropVecs(Left(a), bioBytes + n), a.sector + (bioBytes + n) / 512)
            && Left(b)[0].len <= b.size && b.size == a.size - bioBytes - n && bioBytes >= 0
  {
    var b, left := Advanced(a, nextIdx, n, bioBytes + n), Left(a);
    DropPrefix(left, nextIdx, n);
    assert Left(b) == DropVecs(left, bioBytes + n);
    LengthPositive(left[..nextIdx]);
    DropVecsBytes(left, bioBytes + n);
    LengthPositive(Left(b)[1..]);
  }

  /** The loop stops inside a bio: what is left of it is what dropping the bytes leaves. */
  lemma AmidStop(start: seq<View>, nr: int, bios: seq<Bio>, n: int, nextIdx: nat, bioBytes: int, ended: seq<int>)
    requires Amid(start, nr, bios, n, nextIdx, bioBytes, ended) && bios != [] && n < bios[0].size
    requires nextIdx < |Left(bios[0])| && n < Left(bios[0])[nextIdx].len
    ensures var b := Advanced(bios[0], nextIdx, n, bioBytes + n);
            && AllFormed([b] + bios[1..]) && AllSeen([b] + bios[1..]) == Drop(start, nr) && ended == Covered(start, nr)
            && Total([b] + bios[1..]) == Total(bios) - bioBytes - n && Left(b)[0].len <= Total([b] + bios[1..])
            && (bioBytes + n == 0 ==> [b] + bios[1..] == bios) && bioBytes + n >= 0
  {
    hide Length, DropVecs, Positive, Drop, Covered, AllSeen, Total, Seen;
    AmidPiece(start, nr, bios, n, nextIdx, bioBytes, ended);
    var a := bios[0];
    var b := Advanced(a, nextIdx, n, bioBytes + n);
    assert Formed(a);
    AdvancedFormed(a, nextIdx, n, bioBytes);
    var after := [b] + bios[1..];
    assert after[1..] == bios[1..];
    SeenFirst(bios);
    SeenFirst(after);
    TotalFirst(bios);
    TotalFirst(after);
    TotalNotNegative(bios[1..]);
    StopsInFirst(AllSeen(bios), bioBytes + n);
    if bioBytes + n == 0 {
      NoPieces(a, nextIdx);
      assert b == a && after == bios;
    }
  }

  lemma SeenFirst(bios: seq<Bio>)
    requires AllFormed(bios) && bios != []
    ensures AllSeen(bios) != [] && AllSeen(bios)[0] == Seen(bios[0]) && AllSeen(bios)[1..] == AllSeen(bios[1..])
    ensures AllSeen(bios) == [Seen(bios[0])] + AllSeen(bios[1..])
    ensures Seen(bios[0]) == View(bios[0].id, Left(bios[0]), bios[0].sector) && Length(Seen(bios[0]).vecs) == bios[0].size
  {
    assert Formed(bios[0]);
  }

  /** Fewer bytes than the first bio has cover no bio. */
  lemma StopsInFirst(views: seq<View>, n: int)
    requires views != [] && 0 <= n < Length(views[0].vecs)
    ensures Covered(views, n) == []
    ensures Drop(views, n) == if n == 0 then views
                              else [View(views[0].id, DropVecs(views[0].vecs, n), views[0].sector + n / 512)] + views[1..]
  {
    hide Length, DropVecs;
  }

  /** No bytes done means no piece done. */
  lemma NoPieces(a: Bio, nextIdx: nat)
    requires Formed(a) && nextIdx <= |Left(a)| && Length(Left(a)[..nextIdx]) == 0
    ensures nextIdx == 0 && Advanced(a, 0, 0, 0) == a
  {
    LengthPositive(Left(a)[..nextIdx]);
    var v := a.vecs[a.idx];
    assert v.(offset := v.offset + 0, len := v.len - 0) == v;
    assert a.vecs[a.idx := v] == a.vecs;
  }

  lemma {:induction false} TotalNotNegative(bios: seq<Bio>)
    requires AllFormed(bios)
    ensures Total(bios) >= 0
    decreases |bios|
  {
    if bios != [] {
      assert Formed(bios[0]);
      LengthPositive(Left(bios[0]));
      TotalNotNegative(bios[1..]);
    }
  }

  ghost function Ids(bios: seq<Bio>): (r: seq<int>)
    ensures |r| == |bios| && forall i :: 0 <= i < |r| ==> r[i] == bios[i].id
  {
    seq(|bios|, i requires 0 <= i < |bios| => bios[i].id)
  }

  /** Bios have ended, from the first on; the next may have lost bytes, and its sector has moved on by as many; the
      others are as they were. */
  ghost predicate Resumes(before: seq<Bio>, after: seq<Bio>, ended: seq<int>) {
    && |ended| + |after| == |before| && ended == Ids(before[..|ended|])
    && (after != [] ==>
          var b := before[|ended|];
          && after[1..] == before[|ended| + 1..] && after[0].id == b.id && after[0].size <= b.size
          && after[0].sector == b.sector + (b.size - after[0].size) / 512)
  }

  ghost predicate Gone(before: seq<Bio>, bios: seq<Bio>, ended: seq<int>) {
    |ended| + |bios| == |before| && bios == before[|ended|..] && ended == Ids(before[..|ended|])
  }

  lemma GoneNone(bios: seq<Bio>)
    ensures Gone(bios, bios, [])
  {
  }

  lemma GoneNext(before: seq<Bio>, bios: seq<Bio>, ended: seq<int>)
    requires Gone(before, bios, ended) && bios != []
    ensures Gone(before, bios[1..], ended + [bios[0].id])
  {
  }

  lemma GoneAll(before: seq<Bio>, ended: seq<int>)
    requires Gone(before, [], ended)
    ensures Resumes(before, [], ended)
  {
  }

  lemma GoneRest(before: seq<Bio>, bios: seq<Bio>, ended: seq<int>, nextIdx: nat, n: int, bytes: int)
    requires Gone(before, bios, ended) && bios != [] && bios[0].idx + nextIdx < |bios[0].vecs| && bytes >= 0
    ensures Resumes(before, [Advanced(bios[0], nextIdx, n, bytes)] + bios[1..], ended)
    ensures bytes == 0 ==> Resumes(before, bios, ended)
  {
  }

  class Request {
    var bios: seq<Bio>
    var dataLen: int
    var sector: int
    /** The bios that have been ended, in order. */
    var ended: seq<int>

    constructor (bios: seq<Bio>, sector: int)
      requires AllFormed(bios)
      ensures Valid() && this.bios == bios && this.sector == sector && ended == []
    {
      this.bios, this.sector, ended := bios, sector, [];
      dataLen := Bytecount(bios);
    }

    static function Bytecount(bios: seq<Bio>): (n: int)
      ensures n == Total(bios)
    {
      if bios == [] then 0 else bios[0].size + Bytecount(bios[1..])
    }

    ghost predicate Valid()
      reads this
    {
      AllFormed(bios) && dataLen == Total(bios)
    }

    /** blk_update_request for a request outside a flush sequence: n bytes are done, of which the request may
        have fewer; true if it has more data. */
    method Update(nr: nat) returns (more: bool)
      requires Valid()
      modifies this
      ensures Valid() && AllSeen(bios) == old(Drop(AllSeen(bios), nr))
      ensures ended == old(ended + Covered(AllSeen(bios), nr)) && (more <==> bios != [])
      ensures sector == if more then old(sector) + (old(dataLen) - dataLen) / 512 else old(sector)
      ensures old(ended) <= ended && Resumes(old(bios), bios, ended[|old(ended)|..])
    {
      hide AllSeen, Drop, Covered, Total, Length, Positive, Gone, Resumes;
      GoneNone(bios);
      if bios == [] {
        NothingLeft(nr);
        GoneAll(bios, []);
        assert ended[|ended|..] == [];
        return false;
      }
      ghost var start, before := AllSeen(bios), ended;
      ghost var newly: seq<int> := [];
      var n: int, total, bioBytes, nextIdx, stop := nr, 0, 0, 0, false;
      AmidStart(bios, nr);
      while bios != [] && !stop
        invariant Amid(start, nr, bios, n, nextIdx, if stop then bioBytes - n else bioBytes, newly) && ended == before + newly
        invariant Total(bios) == dataLen - total + bioBytes && (bios != [] ==> nextIdx >= 0)
        invariant Gone(old(bios), bios, newly)
        invariant dataLen == old(dataLen) && sector == old(sector) && (bios == [] ==> bioBytes == 0 && !stop)
        invariant stop ==> bios != [] && n < bios[0].size && nextIdx < |Left(bios[0])| && n < Left(bios[0])[nextIdx].len
        decreases !stop, |bios|, n
      {
        var bio := bios[0];
        TotalFirst(bios);
        if n >= bio.size {
          AmidBio(start, nr, bios, n, nextIdx, bioBytes, newly);
          FirstPositive(start, nr, bios, n, nextIdx, bioBytes, newly);
          GoneNext(old(bios), bios, newly);
          bios, ended := bios[1..], ended + [bio.id];
          newly := newly + [bio.id];
          total, n, nextIdx, bioBytes := total + bio.size, n - bio.size, 0, 0;
        } else {
          AmidPiece(start, nr, bios, n, nextIdx, bioBytes, newly);
          var idx := bio.idx + nextIdx;
          assert idx < |bio.vecs| && bio.vecs[idx] == Left(bio)[nextIdx];
          var nbytes := bio.vecs[idx].len;
          assert nbytes <= bio.size;
          if nbytes > n {
            bioBytes, total, stop := bioBytes + n, total + n, true;
          } else {
            AmidNext(start, nr, bios, n, nextIdx, bioBytes, newly);
            nextIdx, bioBytes := nextIdx + 1, bioBytes + nbytes;
            total, n := total + nbytes, n - nbytes;
          }
        }
        if bios != [] && !stop && n == 0 {
          AmidZero(start, nr, bios, nextIdx, bioBytes, newly);
          stop := true;
        }
      }
      if bios == [] {
        AmidEmpty(start, nr, n, nextIdx, bioBytes, newly);
        GoneAll(old(bios), newly);
        assert ended[|before|..] == newly;
        dataLen := 0;
        return false;
      }
      AmidStop(start, nr, bios, n, nextIdx, bioBytes - n, newly);
      GoneRest(old(bios), bios, newly, nextIdx, n, bioBytes);
      assert ended[|before|..] == newly;
      if bioBytes != 0 {
        bios := [Step(bios[0], nextIdx, n, bioBytes)] + bios[1..];
      }
      dataLen, sector := dataLen - total, sector + total / 512;
      assert dataLen >= Left(bios[0])[0].len;
      more := true;
    }

    /** Completing n bytes and then m, the first part and all bios being whole sectors, leaves the request as completing
        n + m bytes at once does. */
    method UpdateTwice(n: nat, m: nat) returns (more: bool)
      requires Valid() && WholeSectors(AllSeen(bios)) && n % 512 == 0
      modifies this
      ensures Valid() && AllSeen(bios) == old(Drop(AllSeen(bios), n + m))
      ensures ended == old(ended + Covered(AllSeen(bios), n + m)) && (more <==> bios != [])
      ensures dataLen == if n + m <= old(dataLen) then old(dataLen) - n - m else 0
      ensures more ==> sector == old(sector) + (old(dataLen) - dataLen) / 512
    {
      hide AllSeen, Drop, Covered, Total, Length, Positive, WholeSectors, AllFormed;
      ghost var before := bios;
      SeenPositive(before);
      DropTwice(AllSeen(before), n, m);
      CoveredTwice(AllSeen(before), n, m);
      more := Update(n);
      Shortened(before, bios, n);
      ghost var between := bios;
      more := Update(m);
      Shortened(between, bios, m);
    }

    /** req_bio_endio for a part of a bio, and the assignments after it. */
    static function Step(b: Bio, nextIdx: nat, n: int, bytes: int): (r: Bio)
      requires b.idx + nextIdx < |b.vecs|
      ensures r == Advanced(b, nextIdx, n, bytes)
    {
      var i := b.idx + nextIdx;
      var v := b.vecs[i];
      Bio(b.id, b.vecs[i := Vec(v.page, v.offset + n, v.len - n)], i, b.size - bytes, b.sector + bytes / 512)
    }

    lemma NothingLeft(nr: int)
      requires bios == []
      ensures AllSeen(bios) == [] == Drop(AllSeen(bios), nr) && Covered(AllSeen(bios), nr) == [] && ended + [] == ended
    {
    }
  }

  lemma TotalFirst(bios: seq<Bio>)
    requires bios != []
    ensures Total(bios) == bios[0].size + Total(bios[1..])
  {
  }

  lemma FirstPositive(start: seq<View>, nr: int, bios: seq<Bio>, n: int, nextIdx: nat, bioBytes: int, ended: seq<int>)
    requires Amid(start, nr, bios, n, nextIdx, bioBytes, ended) && bios != [] && n >= bios[0].size
    ensures bios[0].size > 0 && bioBytes == 0 && (|bios| == 1 ==> Total(bios[1..]) == 0)
  {
    assert Formed(bios[0]);
    LengthPositive(Left(bios[0]));
    LengthPositive(Left(bios[0])[..nextIdx]);
    assert nextIdx == 0;
  }

  /** The bytes are used up: the loop stands before a piece or before a bio. */
  lemma AmidZero(start: seq<View>, nr: int, bios: seq<Bio>, nextIdx: nat, bioBytes: int, ended: seq<int>)
    requires Amid(start, nr, bios, 0, nextIdx, bioBytes, ended) && bios != []
    ensures 0 < bios[0].size && nextIdx < |Left(bios[0])| && 0 < Left(bios[0])[nextIdx].len
  {
    assert Formed(bios[0]);
    LengthPositive(Left(bios[0]));
    AmidPiece(start, nr, bios, 0, nextIdx, bioBytes, ended);
  }

  lemma AmidEmpty(start: seq<View>, nr: int, n: int, nextIdx: nat, bioBytes: int, ended: seq<int>)
    requires Amid(start, nr, [], n, nextIdx, bioBytes, ended)
    ensures Drop(start, nr) == [] == AllSeen([]) && Covered(start, nr) == ended && Total([]) == 0
  {
  }

  lemma {:induction false} SeenPositive(bios: seq<Bio>)
    requires AllFormed(bios)
    ensures AllPositive(AllSeen(bios)) && |AllSeen(bios)| == |bios|
    decreases |bios|
  {
    if bios != [] {
      assert Formed(bios[0]);
      SeenPositive(bios[1..]);
    }
  }

  /** A request whose bios went from one list to the other by completing n bytes has lost exactly its first n
      bytes, or all of them. */
  lemma UpdatedBytes(before: seq<Bio>, after: seq<Bio>, n: nat)
    requires AllFormed(before) && AllFormed(after) && AllSeen(after) == Drop(AllSeen(before), n)
    ensures AllPositive(AllSeen(before)) && AllPositive(AllSeen(after))
    ensures var b := Bytes(AllSeen(before)); Bytes(AllSeen(after)) == if n <= |b| then b[n..] else []
    ensures after == [] <==> n >= |Bytes(AllSeen(before))|
  {
    SeenPositive(before);
    SeenPositive(after);
    DropBytes(AllSeen(before), n);
    if after != [] {
      BytesLeft(AllSeen(after));
    }
  }

  lemma BytesLeft(views: seq<View>)
    requires AllPositive(views) && views != []
    ensures Bytes(views) != []
  {
    VecBytesLength(views[0].vecs);
    LengthPositive(views[0].vecs);
  }

  lemma {:induction false} TotalIsBytes(bios: seq<Bio>)
    requires AllFormed(bios)
    ensures AllPositive(AllSeen(bios)) && Total(bios) == |Bytes(AllSeen(bios))|
    decreases |bios|
  {
    hide Length, VecBytes, Positive;
    SeenPositive(bios);
    if bios != [] {
      SeenFirst(bios);
      SeenPositive(bios[1..]);
      VecBytesLength(Left(bios[0]));
      TotalIsBytes(bios[1..]);
    }
  }

  /** The length of a request after completing n bytes. */
  lemma Shortened(before: seq<Bio>, after: seq<Bio>, n: nat)
    requires AllFormed(before) && AllFormed(after) && AllSeen(after) == Drop(AllSeen(before), n)
    ensures Total(after) == (if n <= Total(before) then Total(before) - n else 0) && (after == [] <==> n >= Total(before))
  {
    hide AllFormed, AllSeen, Drop, Total, Bytes;
    UpdatedBytes(before, after, n);
    TotalIsBytes(before);
    TotalIsBytes(after);
  }
}
