/** The service-quota bookkeeping of quickstart/aws/interactive.py: the
    tally of quota reserved so far, the check that new requirements fit in
    what AWS still allows, the reservation itself, and the cap on the number
    of workstations of one type. What AWS reports as available is an input
    table; its floating-point values are integers here. */
module InteractiveQuota {
  import opened Wrappers
  import opened Text
  import opened Interactive

  /** A quota table: service (`vpc`, `ec2`), then quota code, then an amount. */
  type Table = map<string, map<string, int>>

  /** `MAX_SUBNET_IPS`: the addresses a workstation can take in the subnet. */
  const MaxSubnetIps: int := 251

  /** `DEFAULT_NUMBEROF_WS`: what an empty answer stands for. */
  const DefaultNumberOfWs: int := 0

  /** `SERVICE_QUOTA_REQUIREMENTS`: what the deployment itself needs. */
  const ServiceQuotaRequirements: Table := map[
    "vpc" := map["L-A4707A72" := 1, "L-FE5A380F" := 1, "L-E79EC296" := 5, "L-F678F1CE" := 1, "L-DF5E4CA3" := 3],
    "ec2" := map["L-0263D0A3" := 1, "L-34B43A08" := 0, "L-3819A6DF" := 0]]

  // ---------------------------------------------------------------------------
  // Tables

  /** Every quota code of `req` has an entry in `row`; otherwise the source
      raises `KeyError`. */
  predicate RowCovers(row: map<string, int>, req: map<string, int>) {
    req.Keys <= row.Keys
  }

  /** Every service and quota code of `reqs` has an entry in `t`. */
  predicate Covers(t: Table, reqs: Table) {
    forall s :: s in reqs ==> s in t && RowCovers(t[s], reqs[s])
  }

  /** The requirements of one service, none when it has no entry. */
  function RowOf(reqs: Table, s: string): map<string, int> {
    if s in reqs then reqs[s] else map[]
  }

  /** `{ service: { r: req[service][r] * number ... } ... }` */
  function Scale(reqs: Table, n: int): (r: Table)
    ensures r.Keys == reqs.Keys
    ensures forall s :: s in r ==> r[s].Keys == reqs[s].Keys
  {
    map s | s in reqs :: ScaleRow(reqs[s], n)
  }

  function ScaleRow(req: map<string, int>, n: int): map<string, int> {
    map r | r in req :: req[r] * n
  }

  /** Scaling keeps the quota codes, so what covers the requirements of one
      workstation covers those of any number of them. */
  lemma ScaleCovers(t: Table, reqs: Table, n: int)
    requires Covers(t, reqs)
    ensures Covers(t, Scale(reqs, n))
  {
  }

  /** Each requirement of a service fits in what is available minus what is
      already reserved. */
  predicate RowFits(avail: map<string, int>, reserved: map<string, int>, req: map<string, int>)
    requires RowCovers(avail, req) && RowCovers(reserved, req)
  {
    forall r :: r in req ==> req[r] <= avail[r] - reserved[r]
  }

  /** Every requirement fits in the remaining quota. */
  predicate Fits(avail: Table, reserved: Table, reqs: Table) {
    && Covers(avail, reqs) && Covers(reserved, reqs)
    && forall s :: s in reqs ==> RowFits(avail[s], reserved[s], reqs[s])
  }

  /** `after` is `before` with the requirements of `req` added, code by code;
      every other code keeps its amount. */
  predicate RowAdded(before: map<string, int>, req: map<string, int>, after: map<string, int>) {
    && after.Keys == before.Keys
    && forall r :: r in before ==> after[r] == before[r] + (if r in req then req[r] else 0)
  }

  /** `after` is `before` with every requirement of `reqs` added, and nothing
      else changed. */
  predicate Added(before: Table, reqs: Table, after: Table) {
    && after.Keys == before.Keys
    && forall s :: s in before ==> RowAdded(before[s], RowOf(reqs, s), after[s])
  }

  /** The row `before` with the requirements of `req` added. */
  function AddedRow(before: map<string, int>, req: map<string, int>): (after: map<string, int>)
    ensures RowAdded(before, req, after)
  {
    map r | r in before :: before[r] + (if r in req then req[r] else 0)
  }

  /** The tally `before` with every requirement of `reqs` added. */
  function AddedTable(before: Table, reqs: Table): (after: Table)
    ensures Added(before, reqs, after)
  {
    map s | s in before :: AddedRow(before[s], RowOf(reqs, s))
  }

  /** `Added` determines the new tally: it is `AddedTable`. */
  lemma AddedIsTable(before: Table, reqs: Table, after: Table)
    requires Added(before, reqs, after)
    ensures after == AddedTable(before, reqs)
  {
    var t := AddedTable(before, reqs);
    forall s | s in before
      ensures after[s] == t[s]
    {
      RowAddedUnique(before[s], RowOf(reqs, s), after[s], t[s]);
    }
    assert after.Keys == t.Keys;
  }

  /** `RowAdded` determines the new row. */
  lemma RowAddedUnique(before: map<string, int>, req: map<string, int>, x: map<string, int>, y: map<string, int>)
    requires RowAdded(before, req, x) && RowAdded(before, req, y)
    ensures x == y
  {
    assert x.Keys == y.Keys;
    forall r | r in x
      ensures x[r] == y[r]
    {
    }
  }

  /** Every reserved amount is within what is available. */
  predicate Within(avail: Table, reserved: Table) {
    forall s, r :: s in reserved && r in reserved[s] && s in avail && r in avail[s] ==> reserved[s][r] <= avail[s][r]
  }

  // ---------------------------------------------------------------------------
  // `requirements_are_met` and `service_quota_reserve`

  /** The inner loop of `requirements_are_met` for one service: whether some
      requirement exceeds the remaining quota. */
  method RowExceeded(avail: map<string, int>, reserved: map<string, int>, req: map<string, int>) returns (exceeded: bool)
    requires RowCovers(avail, req) && RowCovers(reserved, req)
    ensures exceeded == !RowFits(avail, reserved, req)
  {
    exceeded := false;
    var pending := req.Keys;
    while pending != {}
      invariant pending <= req.Keys
      invariant exceeded == exists r :: r in req && r !in pending && req[r] > avail[r] - reserved[r]
      decreases |pending|
    {
      var r :| r in pending;
      var remaining := avail[r] - reserved[r];
      if req[r] > remaining {
        exceeded := true;
      }
      pending := pending - {r};
    }
  }

  /** `requirements_are_met`: every requirement is at most what is available
      minus what is already reserved. Every code is visited, as the source
      collects one message per exceeded code. */
  method RequirementsMet(avail: Table, reserved: Table, reqs: Table) returns (met: bool)
    requires Covers(avail, reqs) && Covers(reserved, reqs)
    ensures met == Fits(avail, reserved, reqs)
  {
    var limitExceeded := false;
    var pending := reqs.Keys;
    while pending != {}
      invariant pending <= reqs.Keys
      invariant limitExceeded == exists s :: s in reqs && s !in pending && !RowFits(avail[s], reserved[s], reqs[s])
      decreases |pending|
    {
      var s :| s in pending;
      var exceeded := RowExceeded(avail[s], reserved[s], reqs[s]);
      limitExceeded := limitExceeded || exceeded;
      pending := pending - {s};
    }
    met := !limitExceeded;
  }

  /** The inner loop of `service_quota_reserve` for one service. */
  method AddRow(row: map<string, int>, req: map<string, int>) returns (out: map<string, int>)
    requires RowCovers(row, req)
    ensures RowAdded(row, req, out)
  {
    out := row;
    var pending := req.Keys;
    while pending != {}
      invariant pending <= req.Keys
      invariant out.Keys == row.Keys
      invariant forall r :: r in row ==> out[r] == row[r] + (if r in req && r !in pending then req[r] else 0)
      decreases |pending|
    {
      var r :| r in pending;
      out := out[r := out[r] + req[r]];
      pending := pending - {r};
    }
  }

  /** The loops of `service_quota_reserve`: every requirement added to the tally. */
  method AddRequirements(tally: Table, reqs: Table) returns (out: Table)
    requires Covers(tally, reqs)
    ensures Added(tally, reqs, out)
  {
    out := tally;
    var pending := reqs.Keys;
    while pending != {}
      invariant pending <= reqs.Keys
      invariant out.Keys == tally.Keys
      invariant forall s :: s in tally && (s !in reqs || s in pending) ==> out[s] == tally[s]
      invariant forall s :: s in reqs && s !in pending ==> RowAdded(tally[s], reqs[s], out[s])
      decreases |pending|
    {
      var s :| s in pending;
      var row := AddRow(out[s], reqs[s]);
      out := out[s := row];
      pending := pending - {s};
    }
  }

  /** Adding nothing leaves the tally as it is. */
  lemma AddedNothing(t: Table, reqs: Table)
    ensures Added(t, Scale(reqs, 0), t)
  {
    forall s | s in t
      ensures RowAdded(t[s], RowOf(Scale(reqs, 0), s), t[s])
    {
      var row := RowOf(Scale(reqs, 0), s);
      forall r | r in row
        ensures row[r] == 0
      {
        assert row[r] == reqs[s][r] * 0;
      }
    }
  }

  /** A reservation that fits keeps every reserved amount within what is
      available, so reserving step by step never overbooks a quota. */
  lemma {:induction false} ReserveKeepsWithin(avail: Table, before: Table, reqs: Table, after: Table)
    requires Within(avail, before) && Fits(avail, before, reqs) && Added(before, reqs, after)
    ensures Within(avail, after)
  {
    forall s, r | s in after && r in after[s] && s in avail && r in avail[s]
      ensures after[s][r] <= avail[s][r]
    {
      assert RowAdded(before[s], RowOf(reqs, s), after[s]);
      if s in reqs && r in reqs[s] {
        assert RowFits(avail[s], before[s], reqs[s]);
        assert reqs[s][r] <= avail[s][r] - before[s][r];
      }
    }
  }

  /** Adding keeps the services and their codes, so what the tally covered
      before it still covers. */
  lemma AddedKeepsCovers(before: Table, reqs: Table, after: Table, other: Table)
    requires Added(before, reqs, after) && Covers(before, other)
    ensures Covers(after, other)
  {
    forall s | s in other
      ensures s in after && RowCovers(after[s], other[s])
    {
      assert RowAdded(before[s], RowOf(reqs, s), after[s]);
    }
  }

  // ---------------------------------------------------------------------------
  // The workstation cap of `numberof_ws_get`

  /** `math.floor(a / b)` */
  function FloorDiv(a: int, b: int): (q: int)
    requires b != 0
    ensures b > 0 ==> q * b <= a < q * b + b
    ensures b < 0 ==> q * b >= a > q * b + b
  {
    if b > 0 then a / b else (-a) / (-b)
  }

  /** For a positive divisor, `n` is at most the floor of `a / b` exactly
      when `n` copies of `b` fit in `a`. */
  lemma FloorDivBound(n: int, a: int, b: int)
    requires b > 0
    ensures n <= FloorDiv(a, b) <==> n * b <= a
  {
    var q := FloorDiv(a, b);
    if n <= q {
      MulNonnegative(q - n, b);
      MulSub(q, n, b);
    } else {
      MulNonnegative(n - q - 1, b);
      MulSub(n, q + 1, b);
      MulSub(q + 1, q, b);
    }
  }

  /** A product of two numbers that are not negative is not negative. */
  lemma MulNonnegative(x: int, b: int)
    requires x >= 0 && b >= 0
    ensures x * b >= 0
  {
  }

  /** Multiplication distributes over subtraction. */
  lemma MulSub(x: int, y: int, b: int)
    ensures x * b - y * b == (x - y) * b
  {
  }

  predicate RowNonzero(req: map<string, int>) {
    forall r :: r in req ==> req[r] != 0
  }

  /** No requirement of one workstation is zero; the source divides by each. */
  predicate Nonzero(reqs: Table) {
    forall s :: s in reqs ==> RowNonzero(reqs[s])
  }

  predicate RowPositive(req: map<string, int>) {
    forall r :: r in req ==> req[r] > 0
  }

  /** Every requirement of one workstation is positive. */
  predicate Positive(reqs: Table) {
    forall s :: s in reqs ==> RowPositive(reqs[s])
  }

  /** `cap` is at most the floor of each remaining quota divided by its
      per-workstation requirement. */
  predicate RowCapBound(cap: int, avail: map<string, int>, reserved: map<string, int>, req: map<string, int>)
    requires RowCovers(avail, req) && RowCovers(reserved, req) && RowNonzero(req)
  {
    forall r :: r in req ==> cap <= FloorDiv(avail[r] - reserved[r], req[r])
  }

  /** `cap` is one of those floors. */
  predicate RowCapAttained(cap: int, avail: map<string, int>, reserved: map<string, int>, req: map<string, int>)
    requires RowCovers(avail, req) && RowCovers(reserved, req) && RowNonzero(req)
  {
    exists r :: r in req && cap == FloorDiv(avail[r] - reserved[r], req[r])
  }

  /** `cap` is the smallest of `room` and every floor of remaining quota
      divided by requirement. */
  predicate IsCap(cap: int, room: int, avail: Table, reserved: Table, reqs: Table)
    requires Covers(avail, reqs) && Covers(reserved, reqs) && Nonzero(reqs)
  {
    && cap <= room
    && (forall s :: s in reqs ==> RowCapBound(cap, avail[s], reserved[s], reqs[s]))
    && (cap == room || exists s :: s in reqs && RowCapAttained(cap, avail[s], reserved[s], reqs[s]))
  }

  /** The inner loop that folds `max_numberof_ws` with `min` over one service. */
  method RowCap(m: int, avail: map<string, int>, reserved: map<string, int>, req: map<string, int>) returns (cap: int)
    requires RowCovers(avail, req) && RowCovers(reserved, req) && RowNonzero(req)
    ensures cap <= m && RowCapBound(cap, avail, reserved, req)
    ensures cap == m || RowCapAttained(cap, avail, reserved, req)
  {
    cap := m;
    var pending := req.Keys;
    while pending != {}
      invariant pending <= req.Keys
      invariant cap <= m
      invariant forall r :: r in req && r !in pending ==> cap <= FloorDiv(avail[r] - reserved[r], req[r])
      invariant cap == m || exists r :: r in req && cap == FloorDiv(avail[r] - reserved[r], req[r])
      decreases |pending|
    {
      var r :| r in pending;
      var remaining := avail[r] - reserved[r];
      var q := FloorDiv(remaining, req[r]);
      if q < cap {
        cap := q;
      }
      pending := pending - {r};
    }
  }

  /** A smaller cap is still below every floor. */
  lemma RowCapBoundLower(c: int, cap: int, avail: map<string, int>, reserved: map<string, int>, req: map<string, int>)
    requires RowCovers(avail, req) && RowCovers(reserved, req) && RowNonzero(req)
    requires c <= cap && RowCapBound(cap, avail, reserved, req)
    ensures RowCapBound(c, avail, reserved, req)
  {
  }

  /** The loops of `numberof_ws_get` that fold `max_numberof_ws`, starting from
      the addresses left in the subnet. */
  method MaxNumberOfWs(room: int, avail: Table, reserved: Table, reqs: Table) returns (cap: int)
    requires Covers(avail, reqs) && Covers(reserved, reqs) && Nonzero(reqs)
    ensures IsCap(cap, room, avail, reserved, reqs)
  {
    cap := room;
    var pending := reqs.Keys;
    while pending != {}
      invariant pending <= reqs.Keys
      invariant cap <= room
      invariant forall s :: s in reqs && s !in pending ==> RowCapBound(cap, avail[s], reserved[s], reqs[s])
      invariant cap == room || exists s :: s in reqs && s !in pending && RowCapAttained(cap, avail[s], reserved[s], reqs[s])
      decreases |pending|
    {
      var s :| s in pending;
      ghost var before := cap;
      cap := RowCap(cap, avail[s], reserved[s], reqs[s]);
      forall t | t in reqs && t !in pending
        ensures RowCapBound(cap, avail[t], reserved[t], reqs[t])
      {
        RowCapBoundLower(cap, before, avail[t], reserved[t], reqs[t]);
      }
      pending := pending - {s};
    }
  }

  /** `n` workstations fit in one service's remaining quota exactly when `n`
      copies of each requirement do. */
  lemma ScaledRowFits(avail: map<string, int>, reserved: map<string, int>, req: map<string, int>, n: int)
    requires RowCovers(avail, req) && RowCovers(reserved, req) && RowPositive(req)
    ensures RowFits(avail, reserved, ScaleRow(req, n)) <==> forall r :: r in req ==> n <= FloorDiv(avail[r] - reserved[r], req[r])
  {
    forall r | r in req
      ensures ScaleRow(req, n)[r] <= avail[r] - reserved[r] <==> n <= FloorDiv(avail[r] - reserved[r], req[r])
    {
      FloorDivBound(n, avail[r] - reserved[r], req[r]);
    }
  }

  /** With positive requirements, `n` is at most the cap exactly when `n` is at
      most `room` and `n` workstations' requirements fit in the remaining
      quota. */
  lemma CapCharacterised(cap: int, room: int, avail: Table, reserved: Table, reqs: Table, n: int)
    requires Covers(avail, reqs) && Covers(reserved, reqs) && Positive(reqs)
    requires Nonzero(reqs) && IsCap(cap, room, avail, reserved, reqs)
    ensures n <= cap <==> n <= room && Fits(avail, reserved, Scale(reqs, n))
  {
    ScaleCovers(avail, reqs, n);
    ScaleCovers(reserved, reqs, n);
    var scaled := Scale(reqs, n);
    forall s | s in reqs
      ensures RowFits(avail[s], reserved[s], scaled[s]) <==>
        forall r :: r in reqs[s] ==> n <= FloorDiv(avail[s][r] - reserved[s][r], reqs[s][r])
    {
      ScaledRowFits(avail[s], reserved[s], reqs[s], n);
    }
    if n <= room && Fits(avail, reserved, scaled) && cap != room {
      var s :| s in reqs && RowCapAttained(cap, avail[s], reserved[s], reqs[s]);
      assert RowFits(avail[s], reserved[s], scaled[s]);
    }
  }

  // ---------------------------------------------------------------------------
  // The prompt of `numberof_ws_get`

  /** `int(input().strip() or DEFAULT_NUMBEROF_WS)`: `None` is `ValueError`. */
  function WsAnswer(answer: string): (n: Option<int>)
    ensures Strip(answer) == [] ==> n == Some(DefaultNumberOfWs)
  {
    var s := Strip(answer);
    if s == [] then Some(DefaultNumberOfWs) else ParseInt(s)
  }

  /** An answer the prompt accepts: a number that is not negative, at most the
      cap, and whose requirements can be reserved. */
  predicate WsAccepts(answer: string, cap: int, avail: Table, reserved: Table, reqs: Table) {
    && WsAnswer(answer).Some?
    && 0 <= WsAnswer(answer).value <= cap
    && Fits(avail, reserved, Scale(reqs, WsAnswer(answer).value))
  }

  /** With positive requirements the reservation never turns down a number
      within the cap: the prompt accepts exactly the numbers from 0 to the cap. */
  lemma WithinCapAccepted(answer: string, cap: int, room: int, avail: Table, reserved: Table, reqs: Table)
    requires Covers(avail, reqs) && Covers(reserved, reqs) && Positive(reqs)
    requires Nonzero(reqs) && IsCap(cap, room, avail, reserved, reqs)
    ensures WsAccepts(answer, cap, avail, reserved, reqs) <==>
      WsAnswer(answer).Some? && 0 <= WsAnswer(answer).value <= cap
  {
    if WsAnswer(answer).Some? {
      CapCharacterised(cap, room, avail, reserved, reqs, WsAnswer(answer).value);
    }
  }

  /** The sum of the numbers chosen so far. */
  function Sum(ns: seq<int>): int {
    if ns == [] then 0 else Sum(ns[..|ns| - 1]) + ns[|ns| - 1]
  }

  /** A single digit of any script is the number typed, as `int()` reads it. */
  lemma WsAnswerSingleDigit(c: char)
    requires IsDecimal(c)
    ensures WsAnswer([c]) == Some(DecimalValue(c))
  {
    SingleDigitParses(c);
  }

  /** The cap is determined by the room and the remaining quota. */
  lemma IsCapUnique(c1: int, c2: int, room: int, avail: Table, reserved: Table, reqs: Table)
    requires Covers(avail, reqs) && Covers(reserved, reqs) && Nonzero(reqs)
    requires IsCap(c1, room, avail, reserved, reqs) && IsCap(c2, room, avail, reserved, reqs)
    ensures c1 == c2
  {
    assert c2 >= c1 by { CapAtLeast(c2, c1, room, avail, reserved, reqs); }
    assert c1 >= c2 by { CapAtLeast(c1, c2, room, avail, reserved, reqs); }
  }

  /** A cap is at least every number below the room and every floor. */
  lemma CapAtLeast(cap: int, other: int, room: int, avail: Table, reserved: Table, reqs: Table)
    requires Covers(avail, reqs) && Covers(reserved, reqs) && Nonzero(reqs)
    requires IsCap(cap, room, avail, reserved, reqs) && IsCap(other, room, avail, reserved, reqs)
    ensures other <= cap
  {
    if cap != room {
      var s :| s in reqs && RowCapAttained(cap, avail[s], reserved[s], reqs[s]);
      var r :| r in reqs[s] && cap == FloorDiv(avail[s][r] - reserved[s][r], reqs[s][r]);
      assert RowCapBound(other, avail[s], reserved[s], reqs[s]);
    }
  }

  /** What the prompt yields under the cap `cap`: 0 without asking when the
      cap is not positive, otherwise the first accepted answer, or `None`
      when no answer is accepted. */
  predicate ChoosesUnder(cap: int, available: Table, reserved: Table, wsReq: Table, answers: seq<string>, number: Option<int>) {
    if cap <= 0 then number == Some(0)
    else match number
      case Some(n) =>
        exists i :: 0 <= i < |answers| && WsAnswer(answers[i]) == Some(n)
          && WsAccepts(answers[i], cap, available, reserved, wsReq)
          && forall j :: 0 <= j < i ==> !WsAccepts(answers[j], cap, available, reserved, wsReq)
      case None => forall j :: 0 <= j < |answers| ==> !WsAccepts(answers[j], cap, available, reserved, wsReq)
  }

  /** What `numberof_ws_get` returns with `room` addresses left in the subnet:
      0 when none is left, otherwise what the prompt yields under the cap. */
  ghost predicate Chooses(room: int, available: Table, reserved: Table, wsReq: Table, answers: seq<string>, number: Option<int>) {
    if room <= 0 then number == Some(0)
    else
      && Covers(available, wsReq) && Covers(reserved, wsReq) && Nonzero(wsReq)
      && exists cap :: (IsCap(cap, room, available, reserved, wsReq)
           && ChoosesUnder(cap, available, reserved, wsReq, answers, number))
  }

  /** The answers for the next type ran out: its choice is `None`, from the
      tally left unchanged. */
  lemma RanOut(room: int, available: Table, before: Table, after: Table, machines: seq<Table>,
               answers: seq<seq<string>>, numbers: seq<int>, number: Option<int>)
    requires |numbers| < |machines| == |answers|
    requires Chooses(room, available, before, machines[|numbers|], answers[|numbers|], number)
    requires number.None? && after == before
    ensures Chooses(room, available, after, machines[|numbers|], answers[|numbers|], None)
  {
  }

  /** The prompt's result is determined by its inputs. */
  lemma ChoosesUnique(room: int, available: Table, reserved: Table, wsReq: Table, answers: seq<string>,
                      n1: Option<int>, n2: Option<int>)
    requires Chooses(room, available, reserved, wsReq, answers, n1)
    requires Chooses(room, available, reserved, wsReq, answers, n2)
    ensures n1 == n2
  {
    if room > 0 {
      var c1 :| IsCap(c1, room, available, reserved, wsReq) && ChoosesUnder(c1, available, reserved, wsReq, answers, n1);
      var c2 :| IsCap(c2, room, available, reserved, wsReq) && ChoosesUnder(c2, available, reserved, wsReq, answers, n2);
      IsCapUnique(c1, c2, room, available, reserved, wsReq);
      ChoosesUnderUnique(c1, available, reserved, wsReq, answers, n1, n2);
    }
  }

  /** Under one cap, the first accepted answer is unique. */
  lemma ChoosesUnderUnique(cap: int, available: Table, reserved: Table, wsReq: Table, answers: seq<string>,
                           n1: Option<int>, n2: Option<int>)
    requires ChoosesUnder(cap, available, reserved, wsReq, answers, n1)
    requires ChoosesUnder(cap, available, reserved, wsReq, answers, n2)
    ensures n1 == n2
  {
    if cap > 0 && n1.Some? && n2.Some? {
      var i1 :| 0 <= i1 < |answers| && WsAnswer(answers[i1]) == n1
        && WsAccepts(answers[i1], cap, available, reserved, wsReq)
        && forall j :: 0 <= j < i1 ==> !WsAccepts(answers[j], cap, available, reserved, wsReq);
      var i2 :| 0 <= i2 < |answers| && WsAnswer(answers[i2]) == n2
        && WsAccepts(answers[i2], cap, available, reserved, wsReq)
        && forall j :: 0 <= j < i2 ==> !WsAccepts(answers[j], cap, available, reserved, wsReq);
      assert i1 == i2;
    }
  }

  /** The tally after reserving `numbers[k]` workstations of type `machines[k]`
      for each `k` in turn. */
  function Tally(t: Table, machines: seq<Table>, numbers: seq<int>): Table
    requires |numbers| <= |machines|
    decreases |numbers|
  {
    if numbers == [] then t
    else
      var k := |numbers| - 1;
      AddedTable(Tally(t, machines, numbers[..k]), Scale(machines[k], numbers[k]))
  }

  /** Each `numbers[k]` is what `numberof_ws_get` returned for type
      `machines[k]` and its typed `answers[k]`, given the workstations counted
      and the quota reserved for the types before it. */
  ghost predicate Configured(available: Table, machines: seq<Table>, answers: seq<seq<string>>,
                             ws0: int, t0: Table, numbers: seq<int>)
    requires |numbers| <= |machines| == |answers|
  {
    forall k :: 0 <= k < |numbers| ==> ChosenAt(available, machines, answers, ws0, t0, numbers, k)
  }

  /** `numbers[k]` is what `numberof_ws_get` returned for type `k`, given the
      workstations counted and the quota reserved for the types before it. */
  ghost predicate ChosenAt(available: Table, machines: seq<Table>, answers: seq<seq<string>>,
                           ws0: int, t0: Table, numbers: seq<int>, k: nat)
    requires k < |numbers| <= |machines| == |answers|
  {
    Chooses(MaxSubnetIps - (ws0 + Sum(numbers[..k])), available, Tally(t0, machines, numbers[..k]),
      machines[k], answers[k], Some(numbers[k]))
  }

  /** Whether type `k` was chosen so depends only on the numbers up to `k`. */
  lemma ChosenAtPrefix(available: Table, machines: seq<Table>, answers: seq<seq<string>>,
                       ws0: int, t0: Table, numbers: seq<int>, extended: seq<int>, k: nat)
    requires k < |numbers| <= |extended| <= |machines| == |answers|
    requires numbers == extended[..|numbers|]
    ensures ChosenAt(available, machines, answers, ws0, t0, extended, k) ==
      ChosenAt(available, machines, answers, ws0, t0, numbers, k)
  {
    assert extended[..k] == numbers[..k] && extended[k] == numbers[k];
  }

  /** The tally has an entry for every quota code of every machine type. */
  predicate CoversAll(t: Table, machines: seq<Table>) {
    forall j :: 0 <= j < |machines| ==> Covers(t, machines[j])
  }

  /** One more type configured: the choice made for it, from the count and
      tally the earlier types left, extends `Configured`, `Sum` and `Tally`,
      and the new tally still covers every type. */
  lemma ConfiguredExtend(available: Table, machines: seq<Table>, answers: seq<seq<string>>,
                         ws0: int, t0: Table, numbers: seq<int>, n: int, after: Table)
    requires |numbers| < |machines| == |answers|
    requires Configured(available, machines, answers, ws0, t0, numbers)
    requires Chooses(MaxSubnetIps - (ws0 + Sum(numbers)), available, Tally(t0, machines, numbers),
      machines[|numbers|], answers[|numbers|], Some(n))
    requires Added(Tally(t0, machines, numbers), Scale(machines[|numbers|], n), after)
    requires CoversAll(Tally(t0, machines, numbers), machines)
    ensures Configured(available, machines, answers, ws0, t0, numbers + [n])
    ensures Sum(numbers + [n]) == Sum(numbers) + n
    ensures after == Tally(t0, machines, numbers + [n])
    ensures CoversAll(after, machines)
  {
    ConfiguredSnoc(available, machines, answers, ws0, t0, numbers, n);
    TallySnoc(machines, t0, numbers, n, after);
  }

  /** `Configured` grows by the choice for the next type. */
  lemma ConfiguredSnoc(available: Table, machines: seq<Table>, answers: seq<seq<string>>,
                       ws0: int, t0: Table, numbers: seq<int>, n: int)
    requires |numbers| < |machines| == |answers|
    requires Configured(available, machines, answers, ws0, t0, numbers)
    requires Chooses(MaxSubnetIps - (ws0 + Sum(numbers)), available, Tally(t0, machines, numbers),
      machines[|numbers|], answers[|numbers|], Some(n))
    ensures Configured(available, machines, answers, ws0, t0, numbers + [n])
  {
    var extended := numbers + [n];
    assert extended[..|numbers|] == numbers && extended[|numbers|] == n;
    forall k | 0 <= k < |extended|
      ensures ChosenAt(available, machines, answers, ws0, t0, extended, k)
    {
      if k < |numbers| {
        ChosenAtPrefix(available, machines, answers, ws0, t0, numbers, extended, k);
      }
    }
  }

  /** The sum and the tally grow by the next choice, and the tally still
      covers every type. */
  lemma TallySnoc(machines: seq<Table>, t0: Table, numbers: seq<int>, n: int, after: Table)
    requires |numbers| < |machines|
    requires Added(Tally(t0, machines, numbers), Scale(machines[|numbers|], n), after)
    requires CoversAll(Tally(t0, machines, numbers), machines)
    ensures Sum(numbers + [n]) == Sum(numbers) + n
    ensures after == Tally(t0, machines, numbers + [n])
    ensures CoversAll(after, machines)
  {
    var before := Tally(t0, machines, numbers);
    var reqs := Scale(machines[|numbers|], n);
    assert (numbers + [n])[..|numbers|] == numbers;
    AddedIsTable(before, reqs, after);
    forall j | 0 <= j < |machines|
      ensures Covers(after, machines[j])
    {
      AddedKeepsCovers(before, reqs, after, machines[j]);
    }
  }



  // ---------------------------------------------------------------------------
  // The state `configurations_get` shares between its helpers

  /** `required_service_quota` and `ws_count` of `configurations_get`. */
  class QuotaLedger {
    /** The quota reserved so far. */
    var required: Table
    /** The workstations configured so far. */
    var wsCount: int

    /** The workstations configured never outnumber the subnet's addresses. */
    ghost predicate Valid()
      reads this
    {
      0 <= wsCount <= MaxSubnetIps
    }

    /** A fresh ledger: nothing reserved for each code of
        `SERVICE_QUOTA_REQUIREMENTS`, and no workstation. */
    constructor ()
      ensures Valid() && wsCount == 0
      ensures required.Keys == ServiceQuotaRequirements.Keys
      ensures forall s :: s in required ==> required[s].Keys == ServiceQuotaRequirements[s].Keys
      ensures forall s, r :: s in required && r in required[s] ==> required[s][r] == 0
    {
      required := map[
        "vpc" := map r | r in ServiceQuotaRequirements["vpc"] :: 0,
        "ec2" := map r | r in ServiceQuotaRequirements["ec2"] :: 0];
      wsCount := 0;
    }

    /** `requirements_are_met(aws_region, requirements)` */
    method RequirementsAreMet(available: Table, reqs: Table) returns (met: bool)
      requires Covers(available, reqs) && Covers(required, reqs)
      ensures met == Fits(available, required, reqs)
    {
      met := RequirementsMet(available, required, reqs);
    }

    /** `service_quota_reserve(aws_region, requirements)`: when the requirements
        fit, all of them are added to the tally; otherwise nothing changes. */
    method ServiceQuotaReserve(available: Table, reqs: Table) returns (ok: bool)
      requires Covers(available, reqs) && Covers(required, reqs)
      modifies this`required
      ensures ok == Fits(available, old(required), reqs)
      ensures ok ==> Added(old(required), reqs, required)
      ensures !ok ==> required == old(required)
    {
      ok := RequirementsMet(available, required, reqs);
      if !ok {
        return;
      }
      required := AddRequirements(required, reqs);
    }

    /** `numberof_ws_get(index, aws_region, machine)` for a machine needing
        `wsReq` per workstation, reading the typed `answers`. With no address
        left, or a cap of zero, it returns 0 without asking. Otherwise it
        returns the first accepted answer after reserving its requirements,
        or `None` when the answers run out. A number the reservation turns
        down is asked again, as the source does; since a failed reservation
        changes nothing, the check is made once per answer. */
    method NumberOfWsGet(available: Table, wsReq: Table, answers: seq<string>) returns (number: Option<int>)
      requires Valid()
      requires MaxSubnetIps - wsCount > 0 ==> Covers(available, wsReq) && Covers(required, wsReq) && Nonzero(wsReq)
      modifies this`required
      ensures Chooses(MaxSubnetIps - wsCount, available, old(required), wsReq, answers, number)
      ensures number.Some? ==> 0 <= number.value && wsCount + number.value <= MaxSubnetIps
      ensures number.Some? ==> Added(old(required), Scale(wsReq, number.value), required)
      ensures number.None? ==> required == old(required)
    {
      var maxNumberOfWs := MaxSubnetIps - wsCount;
      if maxNumberOfWs <= 0 {
        AddedNothing(required, wsReq);
        return Some(0);
      }
      maxNumberOfWs := MaxNumberOfWs(maxNumberOfWs, available, required, wsReq);
      ghost var cap := maxNumberOfWs;
      if maxNumberOfWs <= 0 {
        AddedNothing(required, wsReq);
        assert ChoosesUnder(cap, available, required, wsReq, answers, Some(0));
        return Some(0);
      }
      var reserved := required;
      var index := FirstAccepted(answers, answer => WsAccepts(answer, maxNumberOfWs, available, reserved, wsReq));
      if index.None? {
        assert ChoosesUnder(cap, available, required, wsReq, answers, None);
        return None;
      }
      var n := WsAnswer(answers[index.value]).value;
      assert ChoosesUnder(cap, available, required, wsReq, answers, Some(n));
      ScaleCovers(available, wsReq, n);
      ScaleCovers(required, wsReq, n);
      var ok := ServiceQuotaReserve(available, Scale(wsReq, n));
      assert ok;
      return Some(n);
    }

    /** The loop of `configurations_get` over the workstation types: each
        count is asked for in turn, its quota reserved and the count added to
        `ws_count`. It stops early when the answers for a type run out. */
    method WorkstationsGet(available: Table, machines: seq<Table>, answers: seq<seq<string>>) returns (numbers: seq<int>)
      requires Valid() && |answers| == |machines|
      requires forall i :: 0 <= i < |machines| ==>
        Covers(available, machines[i]) && Covers(required, machines[i]) && Nonzero(machines[i])
      modifies this`required, this`wsCount
      ensures Valid()
      ensures |numbers| <= |machines|
      ensures Configured(available, machines, answers, old(wsCount), old(required), numbers)
      ensures |numbers| < |machines| ==>
        Chooses(MaxSubnetIps - wsCount, available, required, machines[|numbers|], answers[|numbers|], None)
      ensures wsCount == old(wsCount) + Sum(numbers)
      ensures required == Tally(old(required), machines, numbers)
      ensures forall i :: 0 <= i < |numbers| ==> numbers[i] >= 0
    {
      numbers := [];
      var i := 0;
      while i < |machines|
        invariant Valid() && i <= |machines| && |numbers| == i
        invariant Configured(available, machines, answers, old(wsCount), old(required), numbers)
        invariant wsCount == old(wsCount) + Sum(numbers)
        invariant required == Tally(old(required), machines, numbers)
        invariant forall j :: 0 <= j < |numbers| ==> numbers[j] >= 0
        invariant CoversAll(required, machines)
      {
        ghost var before := required;
        var number := NumberOfWsGet(available, machines[i], answers[i]);
        if number.None? {
          RanOut(MaxSubnetIps - wsCount, available, before, required, machines, answers, numbers, number);
          break;
        }
        ConfiguredExtend(available, machines, answers, old(wsCount), old(required), numbers, number.value, required);
        numbers := numbers + [number.value];
        wsCount := wsCount + number.value;
        i := i + 1;
      }
    }
  }
}
