/** The rate accounting of one throttled group in one direction: slices of time in which a
budget of bytes and of operations may be dispatched, extended, trimmed and renewed. */
module Slices {

  const UINT_MAX: int := 0xFFFF_FFFF

  /** Constant finite limits: bytes and operations per second, and timer ticks per second. */
  datatype Limits = Limits(bps: int, iops: int, hz: int) {
    ghost predicate Valid() { bps > 0 && iops > 0 && hz >= 10 }
    function Window(): int { hz / 10 }
  }

  datatype Slice = Slice(bytes: int, ios: int, start: int, end: int)

  function RoundUp(x: int, y: int): int
    requires y > 0
  {
    (x + y - 1) / y * y
  }

  predicate Used(s: Slice, now: int) {
    !(s.start <= now <= s.end)
  }

  /** The slice as tg_may_dispatch sees it: renewed, or extended to last a window from now. */
  function Renewed(lim: Limits, s: Slice, now: int): Slice
    requires lim.Window() > 0
  {
    if Used(s, now) then Slice(0, 0, now, now + lim.Window())
    else if s.end < now + lim.Window() then s.(end := RoundUp(now + lim.Window(), lim.Window()))
    else s
  }

  /** The time for which a budget is granted: at least one window, and whole windows. */
  function Granted(lim: Limits, s: Slice, now: int): int
    requires lim.Window() > 0
  {
    RoundUp(if now == s.start then lim.Window() else now - s.start, lim.Window())
  }

  function BytesAllowed(lim: Limits, s: Slice, now: int): int
    requires lim.Window() > 0
  {
    lim.bps * Granted(lim, s, now) / lim.hz
  }

  function IosAllowed(lim: Limits, s: Slice, now: int): int
    requires lim.Window() > 0
  {
    var n := lim.iops * Granted(lim, s, now) / lim.hz;
    if n > UINT_MAX then UINT_MAX else n
  }

  predicate WithinBps(lim: Limits, s: Slice, now: int, size: int)
    requires lim.Window() > 0
  {
    s.bytes + size <= BytesAllowed(lim, s, now)
  }

  predicate WithinIops(lim: Limits, s: Slice, now: int)
    requires lim.Window() > 0
  {
    s.ios + 1 <= IosAllowed(lim, s, now)
  }

  function BpsWait(lim: Limits, s: Slice, now: int, size: int): int
    requires lim.Window() > 0 && lim.bps > 0
  {
    var w := (s.bytes + size - BytesAllowed(lim, s, now)) * lim.hz / lim.bps;
    (if w == 0 then 1 else w) + Granted(lim, s, now) - (now - s.start)
  }

  /** The product is one of 32-bit numbers. */
  function IopsWait(lim: Limits, s: Slice, now: int): int
    requires lim.Window() > 0 && lim.iops > 0
  {
    var w := (s.ios + 1) * lim.hz % (UINT_MAX + 1) / lim.iops + 1;
    if w > now - s.start then w - (now - s.start) else 1
  }

  datatype Verdict = Verdict(slice: Slice, ok: bool, wait: int)

  /** Whether a bio may go now; if not, how long it should wait, with the slice kept open until then. */
  function MayDispatch(lim: Limits, s: Slice, now: int, size: int): Verdict
    requires lim.Valid()
  {
    var s1 := Renewed(lim, s, now);
    if WithinBps(lim, s1, now, size) && WithinIops(lim, s1, now) then Verdict(s1, true, 0)
    else
      var bpsWait := if WithinBps(lim, s1, now, size) then 0 else BpsWait(lim, s1, now, size);
      var iopsWait := if WithinBps(lim, s1, now, size) then IopsWait(lim, s1, now) else 0;
      var wait := if bpsWait > iopsWait then bpsWait else iopsWait;
      Verdict(if s1.end < now + wait then s1.(end := RoundUp(now + wait, lim.Window())) else s1, false, wait)
  }

  function Charged(s: Slice, size: int): Slice {
    s.(bytes := s.bytes + size, ios := s.ios + 1)
  }

  function Less(x: int, y: int): int {
    if x >= y then x - y else 0
  }

  /** Whole windows that have gone by are taken off the slice, with their share of the budget. */
  function Trimmed(lim: Limits, s: Slice, now: int): Slice
    requires lim.Window() > 0
  {
    if Used(s, now) then s
    else
      var s1 := s.(end := RoundUp(now + lim.Window(), lim.Window()));
      var windows := (now - s.start) / lim.Window();
      var bytes := lim.bps * lim.Window() * windows / lim.hz;
      var ios := lim.iops * lim.Window() * windows / lim.hz;
      if windows == 0 || (bytes == 0 && ios == 0) then s1
      else Slice(Less(s.bytes, bytes), Less(s.ios, ios), s.start + windows * lim.Window(), s1.end)
  }

  /** A bio goes out: it is charged, and the slice is trimmed. */
  function Dispatched(lim: Limits, s: Slice, now: int, size: int): Slice
    requires lim.Window() > 0
  {
    Trimmed(lim, Charged(s, size), now)
  }

  // --- what has gone out since the first slice ---

  /** Totals over the whole run, the start of the slice of the first dispatch, and the time of the last. */
  datatype Past = Past(bytes: int, ios: int, origin: int, last: int)

  /** What an amount dispatched over some time at a given rate may come to. */
  ghost predicate AtMost(amount: int, rate: int, time: int, hz: int) {
    amount * hz <= rate * time
  }

  ghost predicate Accounted(lim: Limits, s: Slice, past: Past) {
    && lim.Valid() && s.start <= s.end && s.bytes >= 0 && s.ios >= 0 && past.bytes >= s.bytes && past.ios >= s.ios
    && AtMost(past.bytes - s.bytes, lim.bps, s.start - past.origin, lim.hz)
    && AtMost(past.ios - s.ios, lim.iops, s.start - past.origin, lim.hz)
    && (past.ios > 0 ==>
          && past.origin <= past.last && s.end >= past.last + lim.Window()
          && AtMost(past.bytes, lim.bps, past.last - past.origin + lim.Window(), lim.hz)
          && AtMost(past.ios, lim.iops, past.last - past.origin + lim.Window(), lim.hz))
    && (past.ios == 0 ==> past.bytes == 0 && past.origin == s.start)
  }

  /** The origin moves with the slice until something has gone out. */
  ghost function Renewal(s: Slice, past: Past): Past {
    if past.ios == 0 then past.(origin := s.start) else past
  }

  lemma RoundUpBounds(x: int, y: int)
    requires y > 0
    ensures x <= RoundUp(x, y) < x + y
  {
    var q := (x + y - 1) / y;
    assert x + y - 1 == q * y + (x + y - 1) % y;
  }

  lemma RoundUpSelf(w: int)
    requires w > 0
    ensures RoundUp(w, w) == w
  {
    var q := (w + w - 1) / w;
    assert w + w - 1 == q * w + (w + w - 1) % w;
    if q >= 2 {
      Scale(2, q, w);
    } else if q <= 0 {
      Scale(q, 0, w);
    }
  }

  lemma Scale(a: int, b: int, k: int)
    requires a <= b && k >= 0
    ensures k * a <= k * b && a * k <= b * k
  {
    assert k * (b - a) >= 0;
  }

  /** Amounts over adjacent times add up. */
  lemma AtMostAdds(a: int, b: int, rate: int, t: int, u: int, hz: int)
    requires AtMost(a, rate, t, hz) && AtMost(b, rate, u, hz)
    ensures AtMost(a + b, rate, t + u, hz)
  {
    assert (a + b) * hz == a * hz + b * hz;
    assert rate * (t + u) == rate * t + rate * u;
  }

  lemma AtMostLonger(a: int, rate: int, t: int, u: int, hz: int)
    requires AtMost(a, rate, t, hz) && t <= u && rate >= 0
    ensures AtMost(a, rate, u, hz)
  {
    Scale(t, u, rate);
  }

  lemma AtMostLess(a: int, b: int, rate: int, t: int, hz: int)
    requires AtMost(a, rate, t, hz) && b <= a && hz >= 0
    ensures AtMost(b, rate, t, hz)
  {
    Scale(b, a, hz);
  }

  /** Rounding a budget down is on the safe side. */
  lemma Budget(rate: int, time: int, hz: int)
    requires hz > 0
    ensures AtMost(rate * time / hz, rate, time, hz)
  {
    assert rate * time == rate * time / hz * hz + rate * time % hz;
  }

  lemma GrantedBound(lim: Limits, s: Slice, now: int)
    requires lim.Valid() && s.start <= now
    ensures now - s.start <= Granted(lim, s, now) <= now - s.start + lim.Window()
  {
    hide RoundUp;
    var w := lim.Window();
    RoundUpBounds(if now == s.start then w else now - s.start, w);
    RoundUpSelf(w);
  }

  /** A slice that has run out has been used less than the time since the origin allows. */
  lemma RenewedAccounted(lim: Limits, s: Slice, past: Past, now: int)
    requires Accounted(lim, s, past) && (past.ios > 0 ==> past.last <= now) && s.start <= now
    ensures var s1 := Renewed(lim, s, now);
            && Accounted(lim, s1, Renewal(s1, past)) && s1.start <= now && s1.end >= now + lim.Window()
  {
    RoundUpBounds(now + lim.Window(), lim.Window());
    if Used(s, now) {
      if past.ios > 0 {
        AtMostLonger(past.bytes, lim.bps, past.last - past.origin + lim.Window(), now - past.origin, lim.hz);
        AtMostLonger(past.ios, lim.iops, past.last - past.origin + lim.Window(), now - past.origin, lim.hz);
      }
    }
  }

  /** Up to when an end lasts that is set for a time: to the end of the window of that time. */
  ghost predicate Lasts(end: int, time: int, window: int) {
    window > 0 && time <= end < time + window && end % window == 0
  }

  lemma RoundUpLasts(x: int, y: int)
    requires y > 0
    ensures Lasts(RoundUp(x, y), x, y)
  {
    RoundUpBounds(x, y);
    MultipleOf((x + y - 1) / y, y);
  }

  lemma MultipleOf(k: int, y: int)
    requires y > 0
    ensures k * y % y == 0
  {
    var p := k * y;
    var q, r := p / y, p % y;
    assert p == q * y + r;
    SmallMultiple(k - q, y, r);
  }

  lemma SmallMultiple(d: int, y: int, r: int)
    requires 0 <= r < y && d * y == r
    ensures r == 0
  {
    if d >= 1 {
      Scale(1, d, y);
    }
  }

  /** What asking does to a slice: one that has run out starts anew, for one window; one that ends within a window is
      extended to last so long; and where the bio has to wait, the slice is extended to last so long, if it does not. */
  lemma AskedExact(lim: Limits, s: Slice, now: int, size: int)
    requires lim.Valid()
    ensures var s1, v, w := Renewed(lim, s, now), MayDispatch(lim, s, now, size), lim.Window();
            && (if !(s.start <= now <= s.end) then s1 == Slice(0, 0, now, now + w)
                else s1 == s.(end := s1.end) && if s.end < now + w then Lasts(s1.end, now + w, w) else s1.end == s.end)
            && v.slice == s1.(end := v.slice.end)
            && (if s1.end < now + v.wait then Lasts(v.slice.end, now + v.wait, w) else v.slice.end == s1.end)
            && (v.ok ==> v.wait == 0)
  {
    hide RoundUp, Lasts, BpsWait, IopsWait, BytesAllowed, IosAllowed;
    var w := lim.Window();
    RoundUpLasts(now + w, w);
    RoundUpLasts(now + MayDispatch(lim, s, now, size).wait, w);
    RenewedEnds(lim, s, now);
  }

  lemma RenewedEnds(lim: Limits, s: Slice, now: int)
    requires lim.Valid()
    ensures Renewed(lim, s, now).end >= now + lim.Window() > now
  {
    hide RoundUp;
    RoundUpBounds(now + lim.Window(), lim.Window());
  }

  lemma WaitsPositive(lim: Limits, s: Slice, now: int, size: int)
    requires lim.Valid() && s.start <= now && s.ios >= 0
    ensures IopsWait(lim, s, now) >= 1
    ensures !WithinBps(lim, s, now, size) ==> BpsWait(lim, s, now, size) >= 1
  {
    hide Granted, BytesAllowed;
    GrantedBound(lim, s, now);
    NotNegative((s.ios + 1) * lim.hz % (UINT_MAX + 1), lim.iops);
    var extra := s.bytes + size - BytesAllowed(lim, s, now);
    if extra > 0 {
      Scale(0, extra, lim.hz);
      NotNegative(extra * lim.hz, lim.bps);
    }
  }

  /** Asking does not disturb the account, and says yes only within the budget; a no means a wait. */
  lemma AskedAccounted(lim: Limits, s: Slice, past: Past, now: int, size: int)
    requires Accounted(lim, s, past) && (past.ios > 0 ==> past.last <= now) && s.start <= now
    ensures var v := MayDispatch(lim, s, now, size);
            && Accounted(lim, v.slice, Renewal(v.slice, past)) && v.slice.start <= now && v.slice.end >= now + lim.Window()
            && v.wait >= 0 && (v.ok <==> v.wait == 0)
            && (v.ok <==> WithinBps(lim, v.slice, now, size) && WithinIops(lim, v.slice, now))
            && v.slice.end >= now + v.wait
  {
    hide AtMost, BytesAllowed, IosAllowed, BpsWait, IopsWait, Granted, Renewed, RoundUp;
    RenewedAccounted(lim, s, past, now);
    var s1 := Renewed(lim, s, now);
    WaitsPositive(lim, s1, now, size);
    var v := MayDispatch(lim, s, now, size);
    SameGrant(lim, s1, v.slice, now);
    RoundUpBounds(now + v.wait, lim.Window());
  }

  lemma NotNegative(x: int, y: int)
    requires y > 0
    ensures x >= 0 ==> x / y >= 0
  {
  }

  /** Asking again at the same time gives the same answer and changes nothing more. */
  lemma AskedAgain(lim: Limits, s: Slice, past: Past, now: int, size: int)
    requires Accounted(lim, s, past) && (past.ios > 0 ==> past.last <= now) && s.start <= now
    ensures var v := MayDispatch(lim, s, now, size); MayDispatch(lim, v.slice, now, size) == v
  {
    hide AtMost, Accounted, BytesAllowed, IosAllowed, BpsWait, IopsWait, Granted;
    AccountedSigns(lim, s, past);
    AskedAccounted(lim, s, past, now, size);
    var v := MayDispatch(lim, s, now, size);
    assert !Used(v.slice, now);
    assert Renewed(lim, v.slice, now) == v.slice;
    var s1 := Renewed(lim, s, now);
    assert v.slice == s1.(end := v.slice.end);
    SameGrant(lim, s1, v.slice, now);
  }

  /** The end of a slice plays no part in its budget. */
  lemma SameGrant(lim: Limits, s: Slice, s1: Slice, now: int)
    requires lim.Window() > 0 && s1 == s.(end := s1.end)
    ensures BytesAllowed(lim, s1, now) == BytesAllowed(lim, s, now) && IosAllowed(lim, s1, now) == IosAllowed(lim, s, now)
    ensures lim.bps > 0 ==> forall size :: BpsWait(lim, s1, now, size) == BpsWait(lim, s, now, size)
    ensures lim.iops > 0 ==> IopsWait(lim, s1, now) == IopsWait(lim, s, now)
  {
    assert Granted(lim, s1, now) == Granted(lim, s, now);
  }

  /** What goes out within the budget of a slice that is in account is within the rate since the origin. */
  lemma WithinRate(before: int, used: int, allowed: int, rate: int, start: int, now: int, granted: int, window: int, hz: int)
    requires AtMost(before, rate, start, hz) && used <= allowed && AtMost(allowed, rate, granted, hz)
    requires granted <= now - start + window && rate >= 0 && hz >= 0
    ensures AtMost(before + used, rate, now + window, hz)
  {
    AtMostLess(allowed, used, rate, granted, hz);
    AtMostLonger(used, rate, granted, now - start + window, hz);
    AtMostAdds(before, used, rate, start, now - start + window, hz);
  }

  ghost function Sent(past: Past, now: int, size: int): Past {
    Past(past.bytes + size, past.ios + 1, past.origin, now)
  }

  lemma ChargedAccounted(lim: Limits, s: Slice, past: Past, now: int, size: int)
    requires Accounted(lim, s, past) && s.start <= now && s.end >= now + lim.Window() && size >= 0
    requires past.origin <= now && WithinBps(lim, s, now, size) && WithinIops(lim, s, now)
    ensures Accounted(lim, Charged(s, size), Sent(past, now, size))
  {
    hide AtMost;
    GrantedBound(lim, s, now);
    var g := Granted(lim, s, now);
    Budget(lim.bps, g, lim.hz);
    WithinRate(past.bytes - s.bytes, s.bytes + size, BytesAllowed(lim, s, now), lim.bps, s.start - past.origin, now - past.origin,
               g, lim.Window(), lim.hz);
    Budget(lim.iops, g, lim.hz);
    AtMostLess(lim.iops * g / lim.hz, IosAllowed(lim, s, now), lim.iops, g, lim.hz);
    WithinRate(past.ios - s.ios, s.ios + 1, IosAllowed(lim, s, now), lim.iops, s.start - past.origin, now - past.origin,
               g, lim.Window(), lim.hz);
  }

  /** Taking whole windows off the slice and their budget off what was used keeps the account. */
  lemma TrimmedAmount(total: int, used: int, rate: int, start: int, windows: int, window: int, hz: int)
    requires AtMost(total - used, rate, start, hz) && hz > 0 && rate >= 0 && windows >= 0 && window >= 0 && used >= 0
    ensures var less := rate * window * windows / hz;
            less >= 0 && AtMost(total - Less(used, less), rate, start + windows * window, hz)
  {
    var less := rate * window * windows / hz;
    assert rate * window * windows == rate * (windows * window);
    Budget(rate, windows * window, hz);
    AtMostAdds(total - used, less, rate, start, windows * window, hz);
    assert less >= 0 by {
      Scale(0, window, rate);
      Scale(0, windows, rate * window);
    }
    AtMostLess(total - used + less, total - Less(used, less), rate, start + windows * window, hz);
  }

  lemma TrimmedAccounted(lim: Limits, s: Slice, past: Past, now: int)
    requires Accounted(lim, s, past) && past.ios > 0 && past.last == now && s.start <= now
    ensures Accounted(lim, Trimmed(lim, s, now), past) && Trimmed(lim, s, now).start <= now
  {
    hide AtMost;
    var w := lim.Window();
    RoundUpBounds(now + w, w);
    var windows := (now - s.start) / w;
    assert now - s.start == windows * w + (now - s.start) % w;
    NotNegative(now - s.start, w);
    Scale(0, windows, w);
    TrimmedAmount(past.bytes, s.bytes, lim.bps, s.start - past.origin, windows, w, lim.hz);
    TrimmedAmount(past.ios, s.ios, lim.iops, s.start - past.origin, windows, w, lim.hz);
  }

  lemma DispatchedAccounted(lim: Limits, s: Slice, past: Past, now: int, size: int)
    requires Accounted(lim, s, past) && s.start <= now && s.end >= now + lim.Window() && size >= 0
    requires past.origin <= now && WithinBps(lim, s, now, size) && WithinIops(lim, s, now)
    ensures Accounted(lim, Dispatched(lim, s, now, size), Sent(past, now, size)) && Dispatched(lim, s, now, size).start <= now
  {
    hide Accounted, Trimmed;
    ChargedAccounted(lim, s, past, now, size);
    assert past.ios >= 0 by {
      AccountedSigns(lim, s, past);
    }
    TrimmedAccounted(lim, Charged(s, size), Sent(past, now, size), now);
  }

  lemma AccountedSigns(lim: Limits, s: Slice, past: Past)
    requires Accounted(lim, s, past)
    ensures lim.Valid() && past.ios >= 0 && past.bytes >= 0 && s.start <= s.end
  {
  }

  // --- quoted waits ---

  lemma QuotientAtLeast(x: int, k: int, y: int)
    requires y > 0 && x >= k * y
    ensures x / y >= k
  {
    var q := x / y;
    assert x == q * y + x % y;
    assert (q + 1) * y == q * y + y;
    if q < k {
      Scale(q + 1, k, y);
    }
  }

  /** One more than the quotient, times the divisor, is beyond the dividend. */
  lemma QuotientPlusOne(x: int, y: int)
    requires y > 0
    ensures y * (x / y + 1) > x
  {
    assert x == x / y * y + x % y;
    assert y * (x / y + 1) == x / y * y + y;
  }

  lemma QuotientIff(x: int, k: int, y: int)
    requires y > 0
    ensures k <= x / y <==> k * y <= x
  {
    if k <= x / y {
      Scale(k, x / y, y);
    }
    if k * y <= x {
      QuotientAtLeast(x, k, y);
    }
  }

  /** One operation more is within the limit for as long as a time has room for it. */
  lemma RoomForOne(lim: Limits, s: Slice, t: int)
    requires lim.Valid() && s.start < t
    ensures WithinIops(lim, s, t) <==> s.ios < UINT_MAX && (s.ios + 1) * lim.hz <= lim.iops * RoundUp(t - s.start, lim.Window())
  {
    hide RoundUp;
    QuotientIff(lim.iops * Granted(lim, s, t), s.ios + 1, lim.hz);
  }

  lemma RoundUpMonotone(x: int, x': int, y: int)
    requires y > 0 && x <= x'
    ensures RoundUp(x, y) <= RoundUp(x', y)
  {
    QuotientMonotone(x + y - 1, x' + y - 1, y);
    Scale((x + y - 1) / y, (x' + y - 1) / y, y);
  }

  /** The time since the start of the slice at which the quoted wait is over; the product is one of 32-bit numbers. */
  function IopsDue(lim: Limits, s: Slice, now: int): int
    requires lim.iops > 0
  {
    var p, elapsed := (s.ios + 1) * lim.hz % (UINT_MAX + 1) / lim.iops + 1, now - s.start;
    if p > elapsed then p else elapsed + 1
  }

  /** After the quoted wait the operation is within the limit exactly if the windows begun by then have room for it,
      and then it is so at any time later. */
  lemma IopsWaitExact(lim: Limits, s: Slice, now: int, t: int)
    requires lim.Valid() && s.start <= now && s.ios >= 0 && t >= now + IopsWait(lim, s, now)
    ensures var room := s.ios < UINT_MAX && (s.ios + 1) * lim.hz <= lim.iops * RoundUp(IopsDue(lim, s, now), lim.Window());
            (WithinIops(lim, s, now + IopsWait(lim, s, now)) <==> room) && (room ==> WithinIops(lim, s, t))
  {
    hide RoundUp, WithinIops;
    var l := IopsDue(lim, s, now);
    RoomForOne(lim, s, s.start + l);
    RoomForOne(lim, s, t);
    RoundUpMonotone(l, t - s.start, lim.Window());
    Scale(RoundUp(l, lim.Window()), RoundUp(t - s.start, lim.Window()), lim.iops);
  }

  /** So the quoted wait suffices wherever the product fits into 32 bits. */
  lemma IopsWaitSuffices(lim: Limits, s: Slice, now: int, t: int)
    requires lim.Valid() && s.start <= now && s.ios >= 0 && t >= now + IopsWait(lim, s, now)
    ensures (s.ios + 1) * lim.hz <= UINT_MAX ==> WithinIops(lim, s, t)
  {
    hide RoundUp, WithinIops;
    var need := (s.ios + 1) * lim.hz;
    if need <= UINT_MAX {
      Scale(0, s.ios + 1, lim.hz);
      assert need % (UINT_MAX + 1) == need;
      var l := IopsDue(lim, s, now);
      RoundUpBounds(l, lim.Window());
      Scale(need / lim.iops + 1, RoundUp(l, lim.Window()), lim.iops);
      QuotientPlusOne(need, lim.iops);
      Scale(1, lim.hz, s.ios + 1);
      IopsWaitExact(lim, s, now, t);
    }
  }

  /** One tick after the quoted wait, and at any time later, the bytes are within the limit. */
  lemma BpsWaitSuffices(lim: Limits, s: Slice, now: int, size: int, t: int)
    requires lim.Valid() && s.start <= now && !WithinBps(lim, s, now, size)
    requires t > now + BpsWait(lim, s, now, size)
    ensures WithinBps(lim, s, t, size)
  {
    hide Granted;
    GrantedBound(lim, s, now);
    var b := BytesAllowed(lim, s, now);
    var w := (s.bytes + size - b) * lim.hz / lim.bps;
    Scale(0, s.bytes + size - b, lim.hz);
    NotNegative((s.bytes + size - b) * lim.hz, lim.bps);
    assert BpsWait(lim, s, now, size) == (if w == 0 then 1 else w) + Granted(lim, s, now) - (now - s.start);
    GrantedBound(lim, s, t);
    BudgetGrows(lim.bps, lim.hz, Granted(lim, s, now), Granted(lim, s, t), s.bytes + size, b, w);
  }

  /** The budget of a longer time has room for what was missing. */
  lemma BudgetGrows(rate: int, hz: int, g: int, g': int, need: int, b: int, w: int)
    requires rate > 0 && hz > 0 && b == rate * g / hz && need > b && w == (need - b) * hz / rate && g' >= g + w + 1
    ensures need <= rate * g' / hz
  {
    var extra := need - b;
    QuotientPlusOne(extra * hz, rate);
    Budget(rate, g, hz);
    GrowsBy(rate, hz, g, g', w, b, extra);
    QuotientAtLeast(rate * g', need, hz);
  }

  lemma GrowsBy(rate: int, hz: int, g: int, g': int, w: int, b: int, extra: int)
    requires rate > 0 && g' >= g + w + 1 && rate * (w + 1) > extra * hz && b * hz <= rate * g
    ensures rate * g' >= (b + extra) * hz
  {
    Scale(g + w + 1, g', rate);
    assert rate * (g + (w + 1)) == rate * g + rate * (w + 1);
    assert (b + extra) * hz == b * hz + extra * hz;
  }

  /** The time that a whole number of windows and some ticks more are granted. */
  lemma GrantedOn(lim: Limits, s: Slice, now: int, w: int)
    requires lim.Valid() && s.start <= now && w > 0
    ensures Granted(lim, s, s.start + Granted(lim, s, now) + w) == Granted(lim, s, now) + RoundUp(w, lim.Window())
  {
    GrantedBound(lim, s, now);
    var y := lim.Window();
    var k := ((if now == s.start then y else now - s.start) + y - 1) / y;
    assert Granted(lim, s, now) == k * y;
    Negated(k, y);
    RoundUpShift(w, -k, y);
  }

  lemma Negated(k: int, y: int)
    ensures -k * y == -(k * y)
  {
  }

  lemma RoundUpWhole(w: int, y: int)
    requires y > 0
    ensures w % y == 0 ==> RoundUp(w, y) == w
    ensures w % y != 0 ==> RoundUp(w, y) > w
  {
    var k := w / y;
    assert w == k * y + w % y;
    Negated(k, y);
    RoundUpShift(w, k, y);
    RoundUpSmall(w % y, y);
  }

  lemma RoundUpSmall(r: int, y: int)
    requires 0 <= r < y
    ensures RoundUp(r, y) == if r == 0 then 0 else y
  {
    var q := (r + y - 1) / y;
    assert r + y - 1 == q * y + (r + y - 1) % y;
    if q >= 2 {
      Scale(2, q, y);
    } else if q <= -1 {
      Scale(q, -1, y);
    }
  }

  /** After the quoted wait alone the bytes are within the limit, unless the missing ones take a whole number of windows
      and that budget, rounded down, has no room. */
  lemma BpsWaitExact(lim: Limits, s: Slice, now: int, size: int)
    requires lim.Valid() && s.start <= now && !WithinBps(lim, s, now, size)
    ensures var w := (s.bytes + size - BytesAllowed(lim, s, now)) * lim.hz / lim.bps;
            WithinBps(lim, s, now + BpsWait(lim, s, now, size), size) <==>
              w == 0 || w % lim.Window() != 0 || (s.bytes + size) * lim.hz <= lim.bps * (Granted(lim, s, now) + w)
  {
    hide Granted, RoundUp;
    var g, b, y := Granted(lim, s, now), BytesAllowed(lim, s, now), lim.Window();
    var w := (s.bytes + size - b) * lim.hz / lim.bps;
    Scale(0, s.bytes + size - b, lim.hz);
    NotNegative((s.bytes + size - b) * lim.hz, lim.bps);
    var t := s.start + g + if w == 0 then 1 else w;
    assert t == now + BpsWait(lim, s, now, size);
    GrantedOn(lim, s, now, if w == 0 then 1 else w);
    RoundUpBounds(1, y);
    RoundUpWhole(w, y);
    if w == 0 || w % y != 0 {
      BudgetGrows(lim.bps, lim.hz, g, Granted(lim, s, t), s.bytes + size, b, w);
    } else {
      QuotientIff(lim.bps * Granted(lim, s, t), s.bytes + size, lim.hz);
    }
  }

  // --- every bio goes in the end ---

  /** The same budget: only the end of the slice is another. */
  ghost predicate SameBudget(s: Slice, s': Slice) {
    s' == s.(end := s'.end)
  }

  /** Asking while the slice lasts: the budget stays, and the slice is kept open for the quoted wait. */
  lemma AskedInTime(lim: Limits, b: Slice, s: Slice, t: int, size: int)
    requires lim.Valid() && b.ios >= 0 && SameBudget(b, s) && s.start <= t <= s.end
    ensures var v := MayDispatch(lim, s, t, size);
            && SameBudget(b, v.slice) && v.slice.end >= t + v.wait && v.wait >= 0
            && (v.ok <==> WithinBps(lim, b, t, size) && WithinIops(lim, b, t))
            && (!v.ok ==> v.wait == if WithinBps(lim, b, t, size) then IopsWait(lim, b, t) else BpsWait(lim, b, t, size))
  {
    hide RoundUp, Granted, BytesAllowed, IosAllowed, BpsWait, IopsWait;
    var s1 := Renewed(lim, s, t);
    SameGrant(lim, b, s1, t);
    WaitsPositive(lim, s1, t, size);
    RoundUpBounds(t + MayDispatch(lim, s, t, size).wait, lim.Window());
    RoundUpBounds(t + lim.Window(), lim.Window());
  }

  lemma GrantedMonotone(lim: Limits, s: Slice, t: int, t': int)
    requires lim.Valid() && s.start <= t <= t'
    ensures Granted(lim, s, t) <= Granted(lim, s, t')
  {
    hide RoundUp;
    var w := lim.Window();
    if t == s.start < t' {
      RoundUpMonotone(1, t' - s.start, w);
      RoundUpAtLeast(w);
      RoundUpSelf(w);
    } else if t > s.start {
      RoundUpMonotone(t - s.start, t' - s.start, w);
    }
  }

  lemma RoundUpAtLeast(w: int)
    requires w > 0
    ensures RoundUp(1, w) == w
  {
    if w == 1 {
      RoundUpSelf(1);
    } else {
      RoundUpSmall(1, w);
    }
  }

  /** What is within the byte limit stays so while the slice lasts. */
  lemma WithinBpsLater(lim: Limits, s: Slice, t: int, t': int, size: int)
    requires lim.Valid() && s.start <= t <= t' && WithinBps(lim, s, t, size)
    ensures WithinBps(lim, s, t', size)
  {
    hide Granted;
    GrantedMonotone(lim, s, t, t');
    Scale(Granted(lim, s, t), Granted(lim, s, t'), lim.bps);
    QuotientMonotone(lim.bps * Granted(lim, s, t), lim.bps * Granted(lim, s, t'), lim.hz);
  }

  /** The bio may go when it is asked for, or when it is asked for again at each quoted time, at most n times more. */
  ghost predicate GoesWithin(lim: Limits, s: Slice, now: int, size: int, n: nat)
    requires lim.Valid()
    decreases n
  {
    var v := MayDispatch(lim, s, now, size);
    v.ok || (n > 0 && GoesWithin(lim, v.slice, now + v.wait, size, n - 1))
  }

  /** Once the bytes are within the limit, the bio goes after at most one more wait. */
  lemma GoesForOps(lim: Limits, b: Slice, s: Slice, t: int, size: int)
    requires lim.Valid() && b.ios >= 0 && (b.ios + 1) * lim.hz <= UINT_MAX && SameBudget(b, s) && s.start <= t <= s.end
    requires WithinBps(lim, b, t, size)
    ensures GoesWithin(lim, s, t, size, 1)
  {
    hide MayDispatch, WithinBps, WithinIops, IopsWait;
    AskedInTime(lim, b, s, t, size);
    var v := MayDispatch(lim, s, t, size);
    if !v.ok {
      IopsWaitSuffices(lim, b, t, t + v.wait);
      WithinBpsLater(lim, b, t, t + v.wait, size);
      AskedInTime(lim, b, v.slice, t + v.wait, size);
    }
  }

  /** A bio that is asked for at the quoted times goes with the fourth asking at the latest, if nothing else goes in
      between and the product does not wrap: bytes may be one tick short once, and operations come after bytes. */
  lemma GoesInTheEnd(lim: Limits, s: Slice, now: int, size: int)
    requires lim.Valid() && s.ios >= 0 && (s.ios + 1) * lim.hz <= UINT_MAX
    ensures GoesWithin(lim, s, now, size, 3)
  {
    hide MayDispatch, WithinBps, WithinIops, BpsWait, IopsWait;
    var b := Renewed(lim, s, now);
    RenewedFits(lim, s, now);
    AskedRenewed(lim, s, now, size);
    if WithinBps(lim, b, now, size) {
      GoesForOps(lim, b, b, now, size);
      GoesLonger(lim, b, now, size, 1, 3);
    } else {
      var v := MayDispatch(lim, b, now, size);
      var t := now + v.wait;
      AskedInTime(lim, b, b, now, size);
      AskedInTime(lim, b, v.slice, t, size);
      if WithinBps(lim, b, t, size) {
        GoesForOps(lim, b, v.slice, t, size);
        GoesLonger(lim, v.slice, t, size, 1, 2);
      } else {
        var v1 := MayDispatch(lim, v.slice, t, size);
        WaitsPositive(lim, b, t, size);
        BpsWaitSuffices(lim, b, now, size, t + v1.wait);
        GoesForOps(lim, b, v1.slice, t + v1.wait, size);
      }
    }
  }

  lemma {:induction false} GoesLonger(lim: Limits, s: Slice, now: int, size: int, n: nat, m: nat)
    requires lim.Valid() && n <= m && GoesWithin(lim, s, now, size, n)
    ensures GoesWithin(lim, s, now, size, m)
    decreases n
  {
    hide MayDispatch;
    var v := MayDispatch(lim, s, now, size);
    if !v.ok {
      GoesLonger(lim, v.slice, now + v.wait, size, n - 1, m - 1);
    }
  }

  lemma RenewedFits(lim: Limits, s: Slice, now: int)
    requires lim.Valid() && s.ios >= 0 && (s.ios + 1) * lim.hz <= UINT_MAX
    ensures var b := Renewed(lim, s, now);
            && b.ios >= 0 && (b.ios + 1) * lim.hz <= UINT_MAX && b.start <= now <= b.end && Renewed(lim, b, now) == b
  {
    RoundUpBounds(now + lim.Window(), lim.Window());
    Scale(1, s.ios + 1, lim.hz);
  }

  lemma AskedRenewed(lim: Limits, s: Slice, now: int, size: int)
    requires lim.Valid() && Renewed(lim, Renewed(lim, s, now), now) == Renewed(lim, s, now)
    ensures MayDispatch(lim, s, now, size) == MayDispatch(lim, Renewed(lim, s, now), now, size)
  {
  }

  /** Asked for again after the quoted wait, the bio goes exactly if the slice still lasts and there is room for the
      operation, or a new slice has room for all of it in its first window. */
  lemma AskedLater(lim: Limits, s: Slice, now: int, size: int, t: int)
    requires lim.Valid() && s.ios >= 0 && !MayDispatch(lim, s, now, size).ok && t > now + MayDispatch(lim, s, now, size).wait
    ensures var s' := MayDispatch(lim, s, now, size).slice;
            MayDispatch(lim, s', t, size).ok <==>
              if t <= s'.end then WithinIops(lim, s', t)
              else size <= lim.bps * lim.Window() / lim.hz && lim.hz <= lim.iops * lim.Window()
  {
    hide MayDispatch, WithinBps, WithinIops, BpsWait, IopsWait;
    var b := Renewed(lim, s, now);
    RenewedOpen(lim, s, now);
    AskedRenewed(lim, s, now, size);
    AskedInTime(lim, b, b, now, size);
    var v := MayDispatch(lim, b, now, size);
    if t <= v.slice.end {
      AskedInTime(lim, v.slice, v.slice, t, size);
      LaterBytes(lim, b, v.slice, now, size, t);
    } else {
      NewSliceAdmits(lim, v.slice, t, size);
    }
  }

  lemma RenewedOpen(lim: Limits, s: Slice, now: int)
    requires lim.Valid() && s.ios >= 0
    ensures var b := Renewed(lim, s, now); b.ios >= 0 && b.start <= now <= b.end && Renewed(lim, b, now) == b
  {
    RoundUpBounds(now + lim.Window(), lim.Window());
  }

  lemma LaterBytes(lim: Limits, b: Slice, s: Slice, now: int, size: int, t: int)
    requires lim.Valid() && SameBudget(b, s) && b.start <= now < t
    requires WithinBps(lim, b, now, size) || t > now + BpsWait(lim, b, now, size)
    ensures WithinBps(lim, s, t, size)
  {
    hide Granted, BpsWait;
    SameGrant(lim, b, s, t);
    if WithinBps(lim, b, now, size) {
      WithinBpsLater(lim, b, now, t, size);
    } else {
      BpsWaitSuffices(lim, b, now, size, t);
    }
  }

  // --- no stricter than the limits ---

  /** When a new slice starts, a bio goes out at once exactly if one window has room for it. */
  lemma NewSliceAdmits(lim: Limits, s: Slice, now: int, size: int)
    requires lim.Valid() && Used(s, now)
    ensures MayDispatch(lim, s, now, size).ok <==> size <= lim.bps * lim.Window() / lim.hz && lim.hz <= lim.iops * lim.Window()
  {
    hide BpsWait, IopsWait, RoundUp;
    RoundUpSelf(lim.Window());
    QuotientIff(lim.iops * lim.Window(), 1, lim.hz);
  }

  lemma RoundUpShift(x: int, k: int, w: int)
    requires w > 0
    ensures RoundUp(x - k * w, w) == RoundUp(x, w) - k * w
  {
    var a, b := (x + w - 1) / w, (x - k * w + w - 1) / w;
    assert x + w - 1 == a * w + (x + w - 1) % w;
    assert x - k * w + w - 1 == b * w + (x - k * w + w - 1) % w;
    assert (a - k - b) * w == a * w - k * w - b * w;
    if a - k - b >= 1 {
      Scale(1, a - k - b, w);
    } else if a - k - b <= -1 {
      Scale(a - k - b, -1, w);
    }
  }

  /** What a rate allows in two times, together, is at most one more than what it allows in each. */
  lemma FloorSplits(rate: int, t: int, u: int, hz: int)
    requires hz > 0
    ensures rate * (t + u) / hz <= rate * t / hz + rate * u / hz + 1
  {
    var a, b, c := rate * t, rate * u, rate * (t + u);
    assert c == a + b;
    assert a == a / hz * hz + a % hz && b == b / hz * hz + b % hz && c == c / hz * hz + c % hz;
    var d := c / hz - a / hz - b / hz;
    assert d * hz == c / hz * hz - a / hz * hz - b / hz * hz;
    if d >= 2 {
      Scale(2, d, hz);
    }
  }

  /** Trimming a slice whose past windows were used in full costs at most one byte of the budget at any later time. */
  lemma TrimKeepsBudget(lim: Limits, s: Slice, now: int, t: int)
    requires lim.Valid() && !Used(s, now) && now <= t
    requires s.bytes >= lim.bps * lim.Window() * ((now - s.start) / lim.Window()) / lim.hz
    ensures var s' := Trimmed(lim, s, now);
            BytesAllowed(lim, s', t) - s'.bytes >= BytesAllowed(lim, s, t) - s.bytes - 1
  {
    hide RoundUp, Granted;
    var w := lim.Window();
    var k := (now - s.start) / w;
    var s' := Trimmed(lim, s, now);
    if s'.start == s.start {
      SameStart(lim, s, s', t);
    } else {
      TrimmedParts(lim, s, now);
      TrimGrants(lim, s, s', t, k);
      BudgetShift(lim.bps, lim.hz, Granted(lim, s, t), Granted(lim, s', t), k * w);
    }
  }

  /** What trimming leaves: the slice lasts one window from now, rounded up, and starts less than a window ago, unless
      the windows that have gone by allow not a single byte or operation. */
  lemma TrimExact(lim: Limits, s: Slice, now: int)
    requires lim.Valid() && !Used(s, now)
    ensures var w, s' := lim.Window(), Trimmed(lim, s, now);
            var k := (now - s.start) / w;
            && now + w <= s'.end < now + 2 * w
            && (if lim.bps * (k * w) < lim.hz && lim.iops * (k * w) < lim.hz then s'.start == s.start
                else s'.start == s.start + k * w && now - w < s'.start <= now)
  {
    hide RoundUp;
    var w, k := lim.Window(), (now - s.start) / lim.Window();
    RoundUpBounds(now + w, w);
    assert now - s.start == k * w + (now - s.start) % w;
    WholeWindows(now - s.start, w);
    Regroup(lim.bps, w, k);
    Regroup(lim.iops, w, k);
    NoneAllowed(lim.bps, k * w, lim.hz);
    NoneAllowed(lim.iops, k * w, lim.hz);
  }

  lemma NoneAllowed(rate: int, time: int, hz: int)
    requires hz > 0 && rate > 0 && time >= 0
    ensures rate * time / hz == 0 <==> rate * time < hz
    ensures time == 0 ==> rate * time / hz == 0
  {
    Scale(0, time, rate);
    QuotientIff(rate * time, 1, hz);
    NotNegative(rate * time, hz);
  }

  /** Trimming costs at most one operation of the budget, too. */
  lemma TrimKeepsOps(lim: Limits, s: Slice, now: int, t: int)
    requires lim.Valid() && !Used(s, now) && now <= t
    requires s.ios >= lim.iops * lim.Window() * ((now - s.start) / lim.Window()) / lim.hz
    ensures var s' := Trimmed(lim, s, now);
            IosAllowed(lim, s', t) - s'.ios >= IosAllowed(lim, s, t) - s.ios - 1
  {
    hide RoundUp, Granted;
    var w := lim.Window();
    var k := (now - s.start) / w;
    var s' := Trimmed(lim, s, now);
    if s'.start == s.start {
      SameStart(lim, s, s', t);
    } else {
      WholeWindows(now - s.start, w);
      Regroup(lim.iops, w, k);
      assert s'.ios == s.ios - lim.iops * (k * w) / lim.hz;
      TrimGrants(lim, s, s', t, k);
      BudgetShift(lim.iops, lim.hz, Granted(lim, s, t), Granted(lim, s', t), k * w);
      Scale(0, k * w, lim.iops);
      NotNegative(lim.iops * (k * w), lim.hz);
    }
  }

  /** What trimming takes off. */
  lemma TrimmedParts(lim: Limits, s: Slice, now: int)
    requires lim.Valid() && !Used(s, now) && Trimmed(lim, s, now).start != s.start
    requires s.bytes >= lim.bps * lim.Window() * ((now - s.start) / lim.Window()) / lim.hz
    ensures var k, s' := (now - s.start) / lim.Window(), Trimmed(lim, s, now);
            && s'.start == s.start + k * lim.Window() && s.start <= s'.start <= now
            && s'.bytes == s.bytes - lim.bps * (k * lim.Window()) / lim.hz
  {
    hide RoundUp;
    WholeWindows(now - s.start, lim.Window());
    Regroup(lim.bps, lim.Window(), (now - s.start) / lim.Window());
  }

  lemma WholeWindows(x: int, w: int)
    requires w > 0 && x >= 0
    ensures 0 <= x / w * w <= x
  {
    assert x == x / w * w + x % w;
    NotNegative(x, w);
    Scale(0, x / w, w);
  }

  lemma Regroup(a: int, b: int, c: int)
    ensures a * b * c == a * (c * b)
  {
  }

  lemma SameStart(lim: Limits, s: Slice, s': Slice, t: int)
    requires lim.Valid() && s'.start == s.start
    ensures Granted(lim, s', t) == Granted(lim, s, t)
  {
  }

  lemma BudgetShift(rate: int, hz: int, g: int, g': int, less: int)
    requires rate >= 0 && hz > 0 && g' >= g - less
    ensures rate * g' / hz + rate * less / hz + 1 >= rate * g / hz
  {
    Scale(g - less, g', rate);
    QuotientMonotone(rate * (g - less), rate * g', hz);
    FloorSplits(rate, g - less, less, hz);
  }

  lemma QuotientMonotone(a: int, b: int, y: int)
    requires y > 0 && a <= b
    ensures a / y <= b / y
  {
    assert a == a / y * y + a % y;
    QuotientAtLeast(b, a / y, y);
  }

  /** A slice that starts k windows later grants at least the time of the others. */
  lemma TrimGrants(lim: Limits, s: Slice, s': Slice, t: int, k: int)
    requires lim.Valid() && s'.start == s.start + k * lim.Window() && s.start <= s'.start <= t
    ensures Granted(lim, s', t) >= Granted(lim, s, t) - k * lim.Window()
  {
    hide RoundUp;
    var w := lim.Window();
    RoundUpSelf(w);
    if t == s.start {
      GrantedBound(lim, s', t);
    } else {
      RoundUpShift(t - s.start, k, w);
      if t == s'.start {
        RoundUpBounds(0, w);
        GrantedBound(lim, s', t);
      }
    }
  }

  // --- whole runs ---

  /** A bio is held against the limits at some time; it goes out if it may and if it is meant to. */
  datatype Event = Event(now: int, size: int, send: bool)

  datatype State = State(slice: Slice, past: Past)

  ghost function After(lim: Limits, st: State, e: Event): State
    requires lim.Valid()
  {
    var v := MayDispatch(lim, st.slice, e.now, e.size);
    var past := Renewal(v.slice, st.past);
    if v.ok && e.send then State(Dispatched(lim, v.slice, e.now, e.size), Sent(past, e.now, e.size))
    else State(v.slice, past)
  }

  /** A new group: nothing dispatched, and a slice that ended before the clock started. */
  ghost function Fresh(): State {
    State(Slice(0, 0, 0, 0), Past(0, 0, 0, 0))
  }

  ghost function Final(lim: Limits, events: seq<Event>): State
    requires lim.Valid()
  {
    if events == [] then Fresh() else After(lim, Final(lim, events[..|events| - 1]), events[|events| - 1])
  }

  ghost predicate Monotone(events: seq<Event>) {
    && (forall i :: 0 <= i < |events| ==> events[i].now >= 0 && events[i].size >= 0)
    && (forall i, j :: 0 <= i < j < |events| ==> events[i].now <= events[j].now)
  }

  ghost predicate Ready(lim: Limits, st: State, now: int) {
    Accounted(lim, st.slice, st.past) && st.slice.start <= now && (st.past.ios > 0 ==> st.past.last <= now)
  }

  lemma AfterReady(lim: Limits, st: State, e: Event)
    requires Ready(lim, st, e.now) && e.size >= 0
    ensures Ready(lim, After(lim, st, e), e.now)
  {
    hide MayDispatch, Dispatched, WithinBps, WithinIops;
    AskedAccounted(lim, st.slice, st.past, e.now, e.size);
    var v := MayDispatch(lim, st.slice, e.now, e.size);
    var past := Renewal(v.slice, st.past);
    if v.ok && e.send {
      DispatchedAccounted(lim, v.slice, past, e.now, e.size);
    }
  }

  lemma {:induction false} FinalReady(lim: Limits, events: seq<Event>, now: int)
    requires lim.Valid() && Monotone(events) && now >= 0
    requires |events| > 0 ==> events[|events| - 1].now <= now
    ensures Ready(lim, Final(lim, events), now)
    decreases |events|
  {
    if events != [] {
      var e := events[|events| - 1];
      FinalReady(lim, events[..|events| - 1], e.now);
      AfterReady(lim, Final(lim, events[..|events| - 1]), e);
    }
  }

  lemma ReadyBound(lim: Limits, st: State, now: int)
    requires Ready(lim, st, now)
    ensures st.past.origin <= now
    ensures st.past.bytes * lim.hz <= lim.bps * (now - st.past.origin + lim.Window())
    ensures st.past.ios * lim.hz <= lim.iops * (now - st.past.origin + lim.Window())
  {
    var past := st.past;
    if past.ios > 0 {
      AtMostLonger(past.bytes, lim.bps, past.last - past.origin + lim.Window(), now - past.origin + lim.Window(), lim.hz);
      AtMostLonger(past.ios, lim.iops, past.last - past.origin + lim.Window(), now - past.origin + lim.Window(), lim.hz);
    } else {
      Scale(0, now - past.origin + lim.Window(), lim.bps);
      Scale(0, now - past.origin + lim.Window(), lim.iops);
    }
  }

  /** In every run, over every renewal, extension and trimming of slices, what has gone out is within
      the limits for the time since the first slice and one window. */
  lemma RateBound(lim: Limits, events: seq<Event>, now: int)
    requires lim.Valid() && Monotone(events) && now >= 0
    requires |events| > 0 ==> events[|events| - 1].now <= now
    ensures var past := Final(lim, events).past;
            && past.origin <= now
            && past.bytes * lim.hz <= lim.bps * (now - past.origin + lim.Window())
            && past.ios * lim.hz <= lim.iops * (now - past.origin + lim.Window())
  {
    FinalReady(lim, events, now);
    ReadyBound(lim, Final(lim, events), now);
  }

  // --- waits that are too short ---

  /** The wait quoted for bytes, alone, is too short: the first bio of a new group, of 1024 bytes at 5110 bytes a second,
      is told to wait two windows, and what they allow is two bytes short. */
  lemma BpsWaitAlone()
    ensures var lim := Limits(5110, 1000, 100);
            var v := MayDispatch(lim, Final(lim, []).slice, 7, 1024);
            !v.ok && v.wait == 20 && !MayDispatch(lim, v.slice, 7 + v.wait, 1024).ok
  {
  }

  const FAST := Limits(100_000_000_000, 50_000_000, 1000)

  /** So many bios of 512 bytes, all at time zero. */
  ghost function Burst(n: nat): (events: seq<Event>)
    ensures |events| == n
  {
    seq(n, i => Event(0, 512, true))
  }

  lemma BurstStep(n: nat, end: int, past: Past)
    requires n < 5_000_000 && 0 <= end <= 100
    ensures After(FAST, State(Slice(512 * n, n, 0, end), past), Event(0, 512, true)).slice == Slice(512 * (n + 1), n + 1, 0, 100)
  {
    hide RoundUp, Granted, BytesAllowed, IosAllowed, BpsWait, IopsWait;
    RoundUpSelf(100);
    FirstWindow(Slice(512 * n, n, 0, 100));
  }

  lemma FirstWindow(s: Slice)
    requires s.start == 0
    ensures BytesAllowed(FAST, s, 0) == 10_000_000_000 && IosAllowed(FAST, s, 0) == 5_000_000
  {
    hide RoundUp;
    RoundUpSelf(100);
  }

  /** The first window has room for 5,000,000 of them. */
  lemma {:induction false} BurstSlice(n: nat)
    requires 1 <= n <= 5_000_000
    ensures Final(FAST, Burst(n)).slice == Slice(512 * n, n, 0, 100)
  {
    hide After;
    assert Burst(n)[..n - 1] == Burst(n - 1) && Burst(n)[n - 1] == Event(0, 512, true);
    var st := Final(FAST, Burst(n - 1));
    if n > 1 {
      BurstSlice(n - 1);
    }
    BurstStep(n - 1, st.slice.end, st.past);
  }

  /** The wait quoted for operations is too short in a run where the product of 32-bit numbers wraps: one operation
      more is told to wait 14 ticks and may not go then. */
  lemma IopsWaitWraps()
    ensures var s := Final(FAST, Burst(5_000_000)).slice;
            var v := MayDispatch(FAST, s, 1, 512);
            && Monotone(Burst(5_000_000)) && (s.ios + 1) * FAST.hz > UINT_MAX
            && !v.ok && v.wait == 14 && !MayDispatch(FAST, v.slice, 1 + v.wait, 512).ok
  {
    hide Final;
    BurstSlice(5_000_000);
  }
}
