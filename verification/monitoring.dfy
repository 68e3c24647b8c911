/** The admin presence registry of `controllers/monitoringController.js`: the `connectedAdmins`
    object (email -> socket id and last activity), kept as the sequence of its entries in the
    order `Object.entries` walks them — insertion order, since e-mail keys are never
    integer-like. Timestamps are an abstract clock passed in as `now`. */
module Monitoring {
  import opened Wrappers

  datatype AdminInfo = AdminInfo(socketId: string, lastActive: int)

  datatype Entry = Entry(email: string, info: AdminInfo)

  type Registry = seq<Entry>

  /** Object keys are distinct. */
  predicate UniqueEmails(reg: Registry) {
    forall i, j :: 0 <= i < j < |reg| ==> reg[i].email != reg[j].email
  }

  /** The keys of the object. */
  function Emails(reg: Registry): set<string> {
    set k | 0 <= k < |reg| :: reg[k].email
  }

  /** The position of the entry for `email`, if any. */
  function IndexOfEmail(reg: Registry, email: string): (r: Option<nat>)
    ensures r.None? <==> forall i :: 0 <= i < |reg| ==> reg[i].email != email
    ensures r.Some? ==> r.value < |reg| && reg[r.value].email == email
  {
    if reg == [] then None
    else if reg[|reg| - 1].email == email then Some(|reg| - 1)
    else IndexOfEmail(reg[..|reg| - 1], email)
  }

  /** `connectedAdmins[email]`. */
  function Lookup(reg: Registry, email: string): (r: Option<AdminInfo>)
    ensures r.None? <==> email !in Emails(reg)
  {
    match IndexOfEmail(reg, email)
    case None => None
    case Some(i) => Some(reg[i].info)
  }

  /** With distinct keys, the entry at position `k` is what its key looks up. */
  lemma LookupAt(reg: Registry, k: nat)
    requires UniqueEmails(reg) && k < |reg|
    ensures Lookup(reg, reg[k].email) == Some(reg[k].info)
  {
  }

  /** `registerAdmin`: `connectedAdmins[email] = { socketId, lastActive: now }`. An existing
      key keeps its position; a new one goes last. */
  function Register(reg: Registry, email: string, socketId: string, now: int): (r: Registry)
    ensures email in Emails(r) && Emails(r) == Emails(reg) + {email}
    ensures |r| >= |reg|
    ensures forall k :: 0 <= k < |reg| && reg[k].email != email ==> r[k] == reg[k]
    ensures email in Emails(reg) ==> |r| == |reg|
    ensures email !in Emails(reg) ==> r == reg + [Entry(email, AdminInfo(socketId, now))]
  {
    var e := Entry(email, AdminInfo(socketId, now));
    match IndexOfEmail(reg, email)
    case Some(i) =>
      var r := reg[i := e];
      assert Emails(r) == Emails(reg) + {email} by {
        forall x | x in Emails(reg) ensures x in Emails(r) {
          var k :| 0 <= k < |reg| && reg[k].email == x;
          assert r[k].email == x;
        }
        assert r[i].email == email;
      }
      r
    case None =>
      var r := reg + [e];
      assert Emails(r) == Emails(reg) + {email} by {
        forall x | x in Emails(reg) ensures x in Emails(r) {
          var k :| 0 <= k < |reg| && reg[k].email == x;
          assert r[k].email == x;
        }
        assert r[|reg|].email == email;
      }
      r
  }

  /** Registering writes exactly one key of the object and keeps its keys distinct. */
  lemma RegisterSemantics(reg: Registry, email: string, socketId: string, now: int, x: string)
    requires UniqueEmails(reg)
    ensures UniqueEmails(Register(reg, email, socketId, now))
    ensures Lookup(Register(reg, email, socketId, now), x)
            == if x == email then Some(AdminInfo(socketId, now)) else Lookup(reg, x)
  {
    var r := Register(reg, email, socketId, now);
    var at := IndexOfEmail(reg, email);
    var kAt := if at.Some? then at.value else |reg|;
    assert r[kAt] == Entry(email, AdminInfo(socketId, now));
    assert UniqueEmails(r) by {
      forall i, j | 0 <= i < j < |r| ensures r[i].email != r[j].email {
        if i != kAt && j != kAt { assert r[i] == reg[i] && r[j] == reg[j]; }
      }
    }
    LookupAt(r, kAt);
    if x != email {
      if x in Emails(reg) {
        var k :| 0 <= k < |reg| && reg[k].email == x;
        LookupAt(reg, k);
        LookupAt(r, k);
      } else {
        assert x !in Emails(r);
      }
    }
  }

  /** The first entry whose socket id matches, if any. */
  function FirstWithSocket(reg: Registry, socketId: string): (r: Option<nat>)
    ensures r.None? <==> forall i :: 0 <= i < |reg| ==> reg[i].info.socketId != socketId
    ensures r.Some? ==> r.value < |reg| && reg[r.value].info.socketId == socketId
                        && forall j :: 0 <= j < r.value ==> reg[j].info.socketId != socketId
  {
    if reg == [] then None
    else if reg[0].info.socketId == socketId then Some(0)
    else match FirstWithSocket(reg[1..], socketId)
      case None => None
      case Some(i) => Some(i + 1)
  }

  /** `unregisterAdmin`: delete the first entry carrying `socketId` and stop. */
  function Unregister(reg: Registry, socketId: string): (r: Registry)
    ensures FirstWithSocket(reg, socketId).None? ==> r == reg
    ensures FirstWithSocket(reg, socketId).Some? ==>
              var i := FirstWithSocket(reg, socketId).value;
              |r| == |reg| - 1 && r == reg[..i] + reg[i + 1..]
  {
    match FirstWithSocket(reg, socketId)
    case None => reg
    case Some(i) => reg[..i] + reg[i + 1..]
  }

  /** Removing position `i` shifts every later entry down by one. */
  lemma RemoveAt(reg: Registry, i: nat, k: nat)
    requires i < |reg| && k < |reg| - 1
    ensures (reg[..i] + reg[i + 1..])[k] == if k < i then reg[k] else reg[k + 1]
  {
  }

  /** Removing one entry keeps the keys distinct and drops exactly that entry's key. */
  lemma {:induction false} RemoveAtSemantics(reg: Registry, i: nat, x: string)
    requires UniqueEmails(reg) && i < |reg|
    ensures UniqueEmails(reg[..i] + reg[i + 1..])
    ensures Lookup(reg[..i] + reg[i + 1..], x) == if x == reg[i].email then None else Lookup(reg, x)
  {
    var r := reg[..i] + reg[i + 1..];
    assert UniqueEmails(r) by {
      forall a, b | 0 <= a < b < |r| ensures r[a].email != r[b].email {
        RemoveAt(reg, i, a);
        RemoveAt(reg, i, b);
      }
    }
    if x == reg[i].email {
      forall k | 0 <= k < |r| ensures r[k].email != x {
        RemoveAt(reg, i, k);
      }
    } else if x in Emails(reg) {
      var k :| 0 <= k < |reg| && reg[k].email == x;
      var k' := if k < i then k else k - 1;
      RemoveAt(reg, i, k');
      LookupAt(reg, k);
      LookupAt(r, k');
    } else {
      forall k | 0 <= k < |r| ensures r[k].email != x {
        RemoveAt(reg, i, k);
      }
    }
  }

  /** Unregistering drops exactly the key of the first matching entry, and keeps any later
      entry with the same socket id. */
  lemma UnregisterSemantics(reg: Registry, socketId: string, x: string)
    requires UniqueEmails(reg)
    ensures UniqueEmails(Unregister(reg, socketId))
    ensures FirstWithSocket(reg, socketId).Some? ==>
              Lookup(Unregister(reg, socketId), x)
              == if x == reg[FirstWithSocket(reg, socketId).value].email then None else Lookup(reg, x)
    ensures FirstWithSocket(reg, socketId).None? ==> Lookup(Unregister(reg, socketId), x) == Lookup(reg, x)
  {
    if FirstWithSocket(reg, socketId).Some? {
      RemoveAtSemantics(reg, FirstWithSocket(reg, socketId).value, x);
    }
  }

  /** `updateAdminActivity`: refresh `lastActive` of an existing entry; never add one. */
  function Touch(reg: Registry, email: string, now: int): (r: Registry)
    ensures |r| == |reg|
    ensures forall k :: 0 <= k < |reg| ==>
              && r[k].email == reg[k].email
              && r[k].info.socketId == reg[k].info.socketId
              && (reg[k].email != email ==> r[k] == reg[k])
    ensures email !in Emails(reg) ==> r == reg
  {
    match IndexOfEmail(reg, email)
    case None => reg
    case Some(i) => reg[i := reg[i].(info := reg[i].info.(lastActive := now))]
  }

  /** Touching an admin refreshes that admin's activity time and nothing else. */
  lemma TouchSemantics(reg: Registry, email: string, now: int, x: string)
    requires UniqueEmails(reg)
    ensures UniqueEmails(Touch(reg, email, now))
    ensures Emails(Touch(reg, email, now)) == Emails(reg)
    ensures Lookup(Touch(reg, email, now), x)
            == if x == email && Lookup(reg, x).Some?
               then Some(Lookup(reg, x).value.(lastActive := now))
               else Lookup(reg, x)
  {
    var r := Touch(reg, email, now);
    assert Emails(r) == Emails(reg) by {
      forall y | y in Emails(reg) ensures y in Emails(r) {
        var k :| 0 <= k < |reg| && reg[k].email == y;
        assert r[k].email == y;
      }
    }
    if x in Emails(reg) {
      var k :| 0 <= k < |reg| && reg[k].email == x;
      LookupAt(reg, k);
      LookupAt(r, k);
      if x == email {
        assert IndexOfEmail(reg, email) == Some(k);
      }
    }
  }

  /** One line of `getMonitoringData`. */
  datatype AdminActivity = AdminActivity(email: string, lastActive: int)

  /** `getMonitoringData`: the entries in order, and their count. */
  function MonitoringData(reg: Registry): (r: (seq<AdminActivity>, nat))
    ensures |r.0| == |reg| && r.1 == |r.0|
    ensures forall k :: 0 <= k < |reg| ==> r.0[k] == AdminActivity(reg[k].email, reg[k].info.lastActive)
  {
    var admins := seq(|reg|, k requires 0 <= k < |reg| => AdminActivity(reg[k].email, reg[k].info.lastActive));
    (admins, |admins|)
  }

  /** With distinct keys the reported count is the number of connected admins. */
  lemma {:induction false} CountIsRegistrySize(reg: Registry)
    requires UniqueEmails(reg)
    ensures |Emails(reg)| == |reg|
    ensures MonitoringData(reg).1 == |Emails(reg)|
    decreases |reg|
  {
    if reg != [] {
      var init := reg[..|reg| - 1];
      var last := reg[|reg| - 1];
      CountIsRegistrySize(init);
      assert Emails(reg) == Emails(init) + {last.email} by {
        forall x | x in Emails(reg) ensures x in Emails(init) + {last.email} {
          var k :| 0 <= k < |reg| && reg[k].email == x;
          if k < |reg| - 1 { assert init[k].email == x; }
        }
        forall x | x in Emails(init) ensures x in Emails(reg) {
          var k :| 0 <= k < |init| && init[k].email == x;
          assert reg[k].email == x;
        }
      }
      assert last.email !in Emails(init);
    }
  }
}
