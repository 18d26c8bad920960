/** Checked expiry arithmetic of coordinator-issued grants, in signed 64-bit nanoseconds. */
module Deadline {
  import opened Values

  const LOCAL_ARTIFACT_GRANT_NANOS: int := 300_000_000_000

  predicate InI64(n: int) {
    I64_MIN <= n <= I64_MAX
  }

  function CheckedAdd(a: int, b: int): Option<int> {
    if InI64(a + b) then Some(a + b) else None
  }

  function CheckedSub(a: int, b: int): Option<int> {
    if InI64(a - b) then Some(a - b) else None
  }

  /** RFC 3339 text conversion, restricted to signed 64-bit nanoseconds. */
  datatype Text = Text(parse: string -> Option<int>, format: int -> Option<string>)

  ghost predicate Faithful(text: Text) {
    && (forall s: string :: text.parse(s).Some? ==> InI64(text.parse(s).value))
    && (forall n: int :: text.format(n).Some? ==> text.parse(text.format(n).value) == Some(n))
  }

  datatype Approval = Approval(requestExpiresAt: string, approvedUntil: string)

  datatype Prepared = Prepared(
    grantExpiresAt: string,
    grantExpiry: int,
    requestExpiry: Option<int>,
    approvedUntil: Option<int>,
    effectiveExpiry: int,
    deadlineMono: int
  )

  function Min(a: int, b: int): int {
    if b < a then b else a
  }

  /** Folds an optional cap into the running minimum. */
  function Cap(limit: int, cap: Option<int>): int {
    if cap.Some? then Min(limit, cap.value) else limit
  }

  function Derive(text: Text, now: int, mono: int, approval: Option<Approval>): Option<Prepared> {
    if now < 0 || mono < 0 then None
    else
      var grantCap := CheckedAdd(now, LOCAL_ARTIFACT_GRANT_NANOS);
      if grantCap.None? then None
      else
        var request := if approval.Some? then text.parse(approval.value.requestExpiresAt) else None;
        var approved := if approval.Some? then text.parse(approval.value.approvedUntil) else None;
        if approval.Some? && (request.None? || approved.None?) then None
        else
          var expiry := Cap(Cap(grantCap.value, request), approved);
          var formatted := text.format(expiry);
          var ttl := CheckedSub(expiry, now);
          if formatted.None? || ttl.None? || ttl.value <= 0 then None
          else
            var deadline := CheckedAdd(mono, ttl.value);
            if deadline.None? then None
            else Some(Prepared(formatted.value, expiry, request, approved, expiry, deadline.value))
  }

  // ---------------------------------------------------------------- what derive promises

  /** Every instant after which the grant must not be used. */
  ghost function Caps(text: Text, now: int, approval: Option<Approval>): set<int> {
    {now + LOCAL_ARTIFACT_GRANT_NANOS}
    + (if approval.Some? && text.parse(approval.value.requestExpiresAt).Some?
       then {text.parse(approval.value.requestExpiresAt).value} else {})
    + (if approval.Some? && text.parse(approval.value.approvedUntil).Some?
       then {text.parse(approval.value.approvedUntil).value} else {})
  }

  /** `e` is the least of the instants. */
  ghost predicate Least(e: int, caps: set<int>) {
    e in caps && forall c | c in caps :: e <= c
  }

  ghost predicate Readable(text: Text, approval: Option<Approval>) {
    approval.Some? ==>
      text.parse(approval.value.requestExpiresAt).Some? && text.parse(approval.value.approvedUntil).Some?
  }

  /** The inputs on which a deadline exists: readable caps, all ahead of now, and no overflow. */
  ghost predicate Admissible(text: Text, now: int, mono: int, approval: Option<Approval>, e: int) {
    && 0 <= now && 0 <= mono && Readable(text, approval)
    && now + LOCAL_ARTIFACT_GRANT_NANOS <= I64_MAX
    && Least(e, Caps(text, now, approval))
    && now < e && mono + (e - now) <= I64_MAX
    && text.format(e).Some?
  }

  /** `Derive` answers exactly on the admissible inputs: the least cap, strictly ahead of now and at
      most 300 seconds off, with equal wall and monotonic durations and no overflow. */
  lemma DeriveExact(text: Text, now: int, mono: int, approval: Option<Approval>, e: int)
    requires Faithful(text) && InI64(now) && InI64(mono) && Least(e, Caps(text, now, approval))
    ensures Derive(text, now, mono, approval).Some? <==> Admissible(text, now, mono, approval, e)
    ensures Derive(text, now, mono, approval).Some? ==>
              var p := Derive(text, now, mono, approval).value;
              && p.effectiveExpiry == p.grantExpiry == e
              && now < e <= now + LOCAL_ARTIFACT_GRANT_NANOS
              && p.deadlineMono - mono == e - now
              && InI64(p.deadlineMono) && InI64(e)
              && text.parse(p.grantExpiresAt) == Some(e)
              && (p.requestExpiry.Some? <==> approval.Some?) && (p.approvedUntil.Some? <==> approval.Some?)
              && (p.requestExpiry.Some? ==> e <= p.requestExpiry.value)
              && (p.approvedUntil.Some? ==> e <= p.approvedUntil.value)
  {
    var caps := Caps(text, now, approval);
    var grantCap := now + LOCAL_ARTIFACT_GRANT_NANOS;
    assert grantCap in caps;
    if Readable(text, approval) && approval.Some? {
      var request := text.parse(approval.value.requestExpiresAt).value;
      var approved := text.parse(approval.value.approvedUntil).value;
      assert caps == {grantCap, request, approved};
      assert e == Cap(Cap(grantCap, Some(request)), Some(approved));
      assert InI64(request) && InI64(approved);
    } else if approval.None? {
      assert caps == {grantCap};
    }
  }
}
