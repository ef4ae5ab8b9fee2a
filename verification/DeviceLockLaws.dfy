/**
 * What each command of the device lock does, in the terms of its arguments and of the row it meets: when it
 * succeeds, what the row, the audit and the reply then hold, and the exit code of every refusal.
 */
module DeviceLockLaws {
  import opened Common
  import opened DeviceLock
  import opened DeviceLockRuns
  import opened StripLaws
  import Text

  // ----- arguments -----

  /** An argument that stays non-blank and free of control characters within its length. */
  ghost predicate NamesSomebody(value: string, least: nat) {
    exists t :: IsStripped(value, t) && least <= |t| <= 200 && forall k :: 0 <= k < |t| ==> t[k] as int >= 32
  }

  ghost predicate GoodCode(n: int) {
    0x61 <= n <= 0x7A || 0x41 <= n <= 0x5A || 0x30 <= n <= 0x39 || n in {0x2E, 0x5F, 0x3A, 0x2D}
  }

  /** 1 to 128 characters, and no path in disguise. */
  ghost predicate GoodSerial(serial: string) {
    && 1 <= |serial| <= 128 && (forall k :: 0 <= k < |serial| ==> GoodCode(serial[k] as int))
    && serial != "." && ".." !in Text.Split(':', serial)
  }

  /** ".." at the front of the text, up to a colon or the end. */
  predicate DotDotFirst(s: string) {
    |s| >= 2 && s[0] == '.' && s[1] == '.' && (|s| == 2 || s[2] == ':')
  }

  lemma DotsByChar(c: char, r: string)
    ensures [c] + r == "." <==> c == '.' && r == ""
    ensures [c] + r == ".." <==> c == '.' && r == "."
  {
    assert r == ([c] + r)[1..] && ([c] + r)[0] == c;
  }

  lemma {:induction false} FirstPart(s: string)
    ensures Text.Split(':', s)[0] == "" <==> s == "" || s[0] == ':'
    ensures Text.Split(':', s)[0] == "." <==> |s| >= 1 && s[0] == '.' && (|s| == 1 || s[1] == ':')
    ensures Text.Split(':', s)[0] == ".." <==> DotDotFirst(s)
  {
    if s != "" && s[0] != ':' {
      FirstPart(s[1..]);
      DotsByChar(s[0], Text.Split(':', s[1..])[0]);
    }
  }

  /** One of the later parts, which all follow a colon. */
  predicate DotDotLater(s: string) {
    exists i :: 0 < i && i + 2 <= |s| && s[i - 1] == ':' && DotDotFirst(s[i..])
  }

  lemma {:induction false} LaterParts(s: string)
    ensures ".." in Text.Split(':', s)[1..] <==> DotDotLater(s)
  {
    if s != [] {
      var rest := Text.Split(':', s[1..]);
      LaterParts(s[1..]);
      FirstPart(s[1..]);
      if s[0] == ':' {
        assert Text.Split(':', s)[1..] == rest;
        assert rest == [rest[0]] + rest[1..];
      } else {
        assert Text.Split(':', s)[1..] == rest[1..];
      }
      LaterShift(s);
    }
  }

  lemma LaterShift(s: string)
    requires s != []
    ensures DotDotLater(s) <==> DotDotLater(s[1..]) || (s[0] == ':' && DotDotFirst(s[1..]))
  {
    hide DotDotFirst;
    var rest := s[1..];
    if DotDotLater(s) {
      var i :| 0 < i && i + 2 <= |s| && s[i - 1] == ':' && DotDotFirst(s[i..]);
      assert s[i..] == rest[i - 1..];
      if i > 1 { assert rest[i - 2] == ':'; }
    }
    if DotDotLater(rest) {
      var i :| 0 < i && i + 2 <= |rest| && rest[i - 1] == ':' && DotDotFirst(rest[i..]);
      assert s[i + 1..] == rest[i..];
    }
    if s[0] == ':' && DotDotFirst(rest) { FirstIsLong(rest); assert s[1..] == rest; }
  }

  lemma FirstIsLong(s: string)
    ensures DotDotFirst(s) ==> |s| >= 2
  {
  }

  /** ".." at position i, as a whole part. */
  lemma PartAt(s: string, i: nat)
    requires i <= |s|
    ensures DotDotFirst(s[i..]) <==>
              i + 2 <= |s| && s[i] == '.' && s[i + 1] == '.' && (i + 2 == |s| || s[i + 2] == ':')
  {
  }

  lemma HasAt(s: string, i: nat)
    requires i <= |s| && DotDotFirst(s[i..]) && (i == 0 || s[i - 1] == ':')
    ensures HasDotDotPart(s)
  {
    PartAt(s, i);
    assert s[i] == '.' && s[i + 1] == '.';
  }

  lemma DotDotLaw(s: string)
    ensures HasDotDotPart(s) <==> ".." in Text.Split(':', s)
  {
    hide DotDotFirst, Text.Split;
    FirstPart(s);
    LaterParts(s);
    var parts := Text.Split(':', s);
    assert parts == [parts[0]] + parts[1..];
    assert s[0..] == s;
    if HasDotDotPart(s) {
      var i :| 0 <= i && i + 2 <= |s| && s[i] == '.' && s[i + 1] == '.' && (i == 0 || s[i - 1] == ':')
               && (i + 2 == |s| || s[i + 2] == ':');
      PartAt(s, i);
    }
    if DotDotLater(s) {
      var i :| 0 < i && i + 2 <= |s| && s[i - 1] == ':' && DotDotFirst(s[i..]);
      HasAt(s, i);
    }
    if DotDotFirst(s) { HasAt(s, 0); }
  }

  lemma SerialLaw(serial: string)
    ensures ValidSerial(serial) <==> GoodSerial(serial)
  {
    hide Text.Split;
    DotDotLaw(serial);
    if serial == ".." {
      assert serial[0..] == serial;
      HasAt(serial, 0);
    }
  }

  lemma IdentityLaw(value: string)
    ensures ValidIdentity(value) <==> NamesSomebody(value, 1)
    ensures ValidReason(value) <==> NamesSomebody(value, 8)
  {
    hide IsStripped, Strip;
    StripLaw(value);
    forall t | IsStripped(value, t) ensures t == Strip(value) { StrippedIsUnique(value, t, Strip(value)); }
  }

  /** The checks made before the transaction. */
  lemma WellFormedLaw(c: Cmd)
    ensures c.WellFormed() <==>
              && GoodSerial(c.serial)
              && match c
                 case Acquire(_, holder, purpose, task, ttl, _, _) =>
                   NamesSomebody(holder, 1) && NamesSomebody(purpose, 1) && 60 <= ttl <= 28800
                   && (task.Some? ==> NamesSomebody(task.value, 1))
                 case Renew(_, token, fencing, ttl, _) => fencing >= 1 && 60 <= ttl <= 28800 && token != ""
                 case Release(_, token, fencing, _) => fencing >= 1 && token != ""
                 case BreakStale(_, fencing, reason, actor, _) =>
                   fencing >= 1 && NamesSomebody(reason, 8) && NamesSomebody(actor, 1)
  {
    hide ValidSerial, ValidIdentity, GoodSerial, NamesSomebody, Strip;
    SerialLaw(c.serial);
    match c
    case Acquire(_, holder, purpose, task, _, _, _) =>
      IdentityLaw(holder);
      IdentityLaw(purpose);
      if task.Some? { IdentityLaw(task.value); }
    case BreakStale(_, _, reason, actor, _) =>
      ReasonLaw(reason);
      IdentityLaw(actor);
    case _ =>
  }

  lemma ReasonLaw(value: string)
    ensures ValidReason(value) <==> NamesSomebody(value, 8)
  {
    IdentityLaw(value);
  }

  // ----- commands -----

  /**
   * A well-formed acquire is granted if and only if the serial has no row at all. It then gets the counter of the
   * serial, which moves on, and a row that lasts ttl seconds.
   */
  lemma AcquireLaw(hash: Hash, t: Tables, c: Cmd)
    requires c.Acquire?
    ensures var (t', reply) := Step(hash, t, c);
            && (reply.Granted? <==> c.WellFormed() && c.serial !in t.locks)
            && (reply.Granted? ==>
                  var f := if c.serial in t.counters then t.counters[c.serial] else 1;
                  var at, until := c.now / 1_000_000, (c.now + c.ttl * 1_000_000) / 1_000_000;
                  var task := if c.task.Some? then Some(Strip(c.task.value)) else None;
                  && reply == Granted(f, at, until, c.secret)
                  && t'.locks == t.locks[c.serial := LockRow(Strip(c.holder), Strip(c.purpose), task, hash(c.secret), f,
                                                             at, at, until)]
                  && t'.counters == t.counters[c.serial := f + 1]
                  && t'.audit == t.audit + [AuditRow(c.serial, Acquired(Strip(c.purpose), task, until), Strip(c.holder),
                                                     f, at)])
            && (!reply.Granted? && !c.WellFormed() ==> reply == Refused(5) && t' == t)
            && (!reply.Granted? && c.WellFormed() ==>
                  var row := t.locks[c.serial];
                  var state := if c.now < row.expiresAt * 1_000_000 then HELD else STALE;
                  && reply == Refused(3) && t'.locks == t.locks && t'.counters == t.counters
                  && t'.audit == t.audit + [AuditRow(c.serial, AcquireRejected(state, row.holder), Strip(c.holder),
                                                     row.fencing, c.now / 1_000_000)])
  {
    hide Cmd.WellFormed;
  }

  /**
   * A renew is answered with an extension if and only if it is well formed, the serial is live with this fencing
   * token and the hash of this owner token, and the lock has not expired. The new expiry is counted from now, and
   * nothing but the two stamps of the row changes.
   */
  lemma RenewLaw(hash: Hash, t: Tables, c: Cmd)
    requires c.Renew?
    ensures var (t', reply) := Step(hash, t, c);
            && (reply.Extended? <==>
                  && c.WellFormed() && c.serial in t.locks && t.locks[c.serial].fencing == c.fencing
                  && t.locks[c.serial].tokenHash == hash(c.token)
                  && c.now < t.locks[c.serial].expiresAt * 1_000_000)
            && (reply.Extended? ==>
                  var row := t.locks[c.serial];
                  var at, until := c.now / 1_000_000, (c.now + c.ttl * 1_000_000) / 1_000_000;
                  && reply == Extended(c.fencing, at, until)
                  && t'.locks == t.locks[c.serial := row.(renewedAt := at, expiresAt := until)]
                  && t'.counters == t.counters
                  && t'.audit == t.audit + [AuditRow(c.serial, Renewed(until, c.ttl), row.holder, c.fencing, at)])
            && (!reply.Extended? ==> t' == t && reply == Refused(
                  if !c.WellFormed() then 5 else if c.serial !in t.locks then 3
                  else if t.locks[c.serial].fencing != c.fencing || t.locks[c.serial].tokenHash != hash(c.token) then 4
                  else 3))
  {
    hide Cmd.WellFormed;
  }

  /** A release needs the fencing token and the owner token of the live row, stale or not, and removes the row. */
  lemma ReleaseLaw(hash: Hash, t: Tables, c: Cmd)
    requires c.Release?
    ensures var (t', reply) := Step(hash, t, c);
            && (reply.Freed? <==>
                  && c.WellFormed() && c.serial in t.locks && t.locks[c.serial].fencing == c.fencing
                  && t.locks[c.serial].tokenHash == hash(c.token))
            && (reply.Freed? ==>
                  var row := t.locks[c.serial];
                  var state := if c.now < row.expiresAt * 1_000_000 then HELD else STALE;
                  && reply == Freed(c.fencing, c.now / 1_000_000)
                  && t'.locks == t.locks - {c.serial} && t'.counters == t.counters
                  && t'.audit == t.audit + [AuditRow(c.serial, Released(state), row.holder, c.fencing,
                                                     c.now / 1_000_000)])
            && (!reply.Freed? ==> t' == t && reply == Refused(
                  if !c.WellFormed() then 5 else if c.serial !in t.locks then 3 else 4))
  {
    hide Cmd.WellFormed;
  }

  /** A break needs the fencing token of a live row that has expired, and no owner token, and removes the row. */
  lemma BreakLaw(hash: Hash, t: Tables, c: Cmd)
    requires c.BreakStale?
    ensures var (t', reply) := Step(hash, t, c);
            && (reply.Freed? <==>
                  && c.WellFormed() && c.serial in t.locks && t.locks[c.serial].fencing == c.fencing
                  && c.now >= t.locks[c.serial].expiresAt * 1_000_000)
            && (reply.Freed? ==>
                  var row := t.locks[c.serial];
                  && reply == Freed(c.fencing, c.now / 1_000_000)
                  && t'.locks == t.locks - {c.serial} && t'.counters == t.counters
                  && t'.audit == t.audit + [AuditRow(c.serial, Broken(Strip(c.reason), row.holder, row.purpose,
                                                                      row.expiresAt),
                                                     Strip(c.actor), c.fencing, c.now / 1_000_000)])
            && (!reply.Freed? ==> t' == t && reply == Refused(
                  if !c.WellFormed() then 5 else if c.serial !in t.locks then 3
                  else if t.locks[c.serial].fencing != c.fencing then 4 else 3))
  {
    hide Cmd.WellFormed;
  }

  /** While its lock is held, the owner can move the expiry as far out as the limit allows, at any moment. */
  lemma OwnerCanRenew(hash: Hash, t: Tables, serial: Serial, token: string, ttl: int, now: Micros)
    requires GoodSerial(serial) && serial in t.locks && t.locks[serial].fencing >= 1
    requires t.locks[serial].tokenHash == hash(token) && token != ""
    requires 60 <= ttl <= 28800 && now < t.locks[serial].expiresAt * 1_000_000
    ensures var (t', reply) := Step(hash, t, Renew(serial, token, t.locks[serial].fencing, ttl, now));
            reply.Extended? && serial in t'.locks
            && t'.locks[serial].expiresAt == (now + ttl * 1_000_000) / 1_000_000 == reply.until
  {
    hide Step, Cmd.WellFormed, GoodSerial;
    var c := Renew(serial, token, t.locks[serial].fencing, ttl, now);
    WellFormedLaw(c);
    RenewLaw(hash, t, c);
  }
}
