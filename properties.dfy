/**
 * Properties of the transactions that relate several calls, or a call and the state it
 * leaves: id-uniqueness of the lists is kept, grants are idempotent and undone by revocation,
 * writes, grants and revocations never shorten a medical log, and the two sides of a grant stay mirrored except where the
 * contract overwrites a record.
 */
module Properties {
  import opened Results
  import opened Records
  import opened Identity
  import opened Queries
  import opened Transitions

  /** Every list of every record holds each id at most once. */
  ghost predicate WellFormed(st: Store) {
    forall k | k in st :: UniqueIds(st[k].allowedList) && (st[k].Patient? ==> UniqueIds(st[k].accessList))
  }

  /** Every id on a list names a stored record. */
  ghost predicate Closed(st: Store) {
    && (forall a, g | a in st && g in st[a].allowedList :: g.id in st)
    && (forall a, g | a in st && st[a].Patient? && g in st[a].accessList :: g.id in st)
  }

  /**
   * `b`'s allowed list names `a` exactly when `a` is a patient whose access list names `b`.
   * Only ids are related: the access-list role is whatever the granter passes, the allowed-list
   * role is the granter's attested role at grant time, and neither is tied to the other side.
   */
  ghost predicate Mirrored(st: Store) {
    forall a, b | a in st && b in st ::
      HasId(st[b].allowedList, a) <==> st[a].Patient? && HasId(st[a].accessList, b)
  }

  /** The two sides of every grant agree, and no list refers to a missing record. */
  ghost predicate Consistent(st: Store) {
    Closed(st) && Mirrored(st)
  }

  lemma CreateKeepsWellFormed(st: Store, caller: string, role: Option<string>)
    requires WellFormed(st)
    ensures CreatePatientRecord(st, caller, role).Success? ==> WellFormed(CreatePatientRecord(st, caller, role).value)
    ensures CreateDoctorRecord(st, caller, role).Success? ==> WellFormed(CreateDoctorRecord(st, caller, role).value)
  {}

  lemma WriteKeepsWellFormed(st: Store, caller: string, role: Option<string>, patientId: string, info: string, date: string)
    requires WellFormed(st)
    ensures var r := WritePatientRecord(st, caller, role, patientId, info, date);
      r.Success? ==> WellFormed(r.value)
  {}

  lemma AddPermissionKeepsWellFormed(st: Store, caller: string, callerRole: Option<string>, id: string, role: string)
    requires WellFormed(st)
    ensures var r := AddPermission(st, caller, callerRole, id, role);
      r.Success? ==> WellFormed(r.value)
  {
    if AddPermission(st, caller, callerRole, id, role).Success? {
      AddGrantKeepsUnique(st[id].allowedList, Grant(caller, callerRole));
      AddGrantKeepsUnique(st[caller].accessList, Grant(id, Some(role)));
    }
  }

  lemma DeletePermissionKeepsWellFormed(st: Store, caller: string, id: string)
    requires WellFormed(st)
    ensures var r := DeletePermission(st, caller, id);
      r.Success? ==> WellFormed(r.value)
  {
    if DeletePermission(st, caller, id).Success? {
      WithoutIdKeepsUnique(st[id].allowedList, caller);
      WithoutIdKeepsUnique(st[caller].accessList, id);
    }
  }

  /**
   * After a grant to another id, the caller's access list names `id` (with `role` when the
   * entry is new) and the allowed list of `id` names the caller (with its role when new);
   * `id` then passes the permission check on the caller's record.
   */
  lemma AddPermissionGrants(st: Store, caller: string, callerRole: Option<string>, id: string, role: string)
    requires AddPermission(st, caller, callerRole, id, role).Success? && id != caller
    ensures var st' := AddPermission(st, caller, callerRole, id, role).value;
      && HasId(st'[caller].accessList, id)
      && HasId(st'[id].allowedList, caller)
      && (!HasId(st[caller].accessList, id) ==> st'[caller].accessList == st[caller].accessList + [Grant(id, Some(role))])
      && (!HasId(st[id].allowedList, caller) ==> st'[id].allowedList == st[id].allowedList + [Grant(caller, callerRole)])
      && CheckMyPermissionStatus(st', id, caller) == Success(true)
  {}

  /** A self-grant leaves the caller's access list as it was and names the caller on its own allowed list. */
  lemma SelfGrantKeepsOnlyAllowedList(st: Store, caller: string, callerRole: Option<string>, role: string)
    requires AddPermission(st, caller, callerRole, caller, role).Success?
    ensures var st' := AddPermission(st, caller, callerRole, caller, role).value;
      && st'[caller].accessList == st[caller].accessList
      && HasId(st'[caller].allowedList, caller)
      && st'[caller].medicalInfo == st[caller].medicalInfo
  {}

  /** Granting again what has just been granted changes nothing. */
  lemma AddPermissionIdempotent(st: Store, caller: string, callerRole: Option<string>, id: string, role: string)
    requires AddPermission(st, caller, callerRole, id, role).Success?
    ensures var st' := AddPermission(st, caller, callerRole, id, role).value;
      AddPermission(st', caller, callerRole, id, role) == Success(st')
  {
    var st' := AddPermission(st, caller, callerRole, id, role).value;
    var st'' := AddPermission(st', caller, callerRole, id, role).value;
    AddGrantIdempotent(st[id].allowedList, Grant(caller, callerRole));
    assert st''[id] == st'[id];
    if id != caller {
      AddGrantIdempotent(st[caller].accessList, Grant(id, Some(role)));
      assert st''[caller] == st'[caller];
    }
    assert st'' == st';
  }

  /** Revoking again what has just been revoked changes nothing. */
  lemma DeletePermissionIdempotent(st: Store, caller: string, id: string)
    requires DeletePermission(st, caller, id).Success?
    ensures var st' := DeletePermission(st, caller, id).value;
      DeletePermission(st', caller, id) == Success(st')
  {
    var st' := DeletePermission(st, caller, id).value;
    var st'' := DeletePermission(st', caller, id).value;
    WithoutIdIdempotent(st[id].allowedList, caller);
    assert st''[id] == st'[id];
    if id != caller {
      WithoutIdIdempotent(st[caller].accessList, id);
      assert st''[caller] == st'[caller];
    }
    assert st'' == st';
  }

  /** Revoking a pair that neither side names changes nothing. */
  lemma DeletePermissionUnrelated(st: Store, caller: string, id: string)
    requires DeletePermission(st, caller, id).Success?
    requires !HasId(st[caller].accessList, id) && !HasId(st[id].allowedList, caller)
    ensures DeletePermission(st, caller, id) == Success(st)
  {
    var st' := DeletePermission(st, caller, id).value;
    WithoutIdAbsent(st[id].allowedList, caller);
    assert st'[id] == st[id];
    if id != caller {
      WithoutIdAbsent(st[caller].accessList, id);
      assert st'[caller] == st[caller];
    }
    assert st' == st;
  }

  /**
   * After a revocation of another id, neither side names the other, `id` fails the permission
   * check on the caller's record, and a write by `id` to it is refused.
   */
  lemma DeletePermissionRevokes(st: Store, caller: string, id: string, info: string, date: string)
    requires DeletePermission(st, caller, id).Success? && id != caller
    ensures var st' := DeletePermission(st, caller, id).value;
      && !HasId(st'[caller].accessList, id)
      && !HasId(st'[id].allowedList, caller)
      && CheckMyPermissionStatus(st', id, caller) == Success(false)
      && WritePatientRecord(st', id, Some("doctor"), caller, info, date) == Failure(NotAllowed(id))
  {}

  /** Revoking a grant that was new when it was made restores the state before the grant. */
  lemma DeleteUndoesAdd(st: Store, caller: string, callerRole: Option<string>, id: string, role: string)
    requires AddPermission(st, caller, callerRole, id, role).Success? && id != caller
    requires !HasId(st[caller].accessList, id) && !HasId(st[id].allowedList, caller)
    ensures DeletePermission(AddPermission(st, caller, callerRole, id, role).value, caller, id) == Success(st)
  {
    var st' := AddPermission(st, caller, callerRole, id, role).value;
    WithoutIdUndoesAdd(st[caller].accessList, Grant(id, Some(role)));
    WithoutIdUndoesAdd(st[id].allowedList, Grant(caller, callerRole));
    var st'' := DeletePermission(st', caller, id).value;
    assert st''[caller] == st[caller];
    assert st''[id] == st[id];
    assert st'' == st;
  }

  /** A permitted write is visible to the writer: the log read back is the old log and the new entry. */
  lemma WriteThenRead(st: Store, caller: string, role: Option<string>, patientId: string, info: string, date: string)
    requires WritePatientRecord(st, caller, role, patientId, info, date).Success?
    ensures var st' := WritePatientRecord(st, caller, role, patientId, info, date).value;
      GetMedicalInfoByPatientId(st', caller, patientId)
        == Success(GetMedicalInfoByPatientId(st, caller, patientId).value + [MedicalEntry(date, caller, info)])
  {}

  /**
   * Grants and revocations never touch a medical log: each patient's log stays a prefix of the
   * new one. (Re-creating a record does not keep this: see `RecreateErasesLog`.)
   */
  lemma LogOnlyGrows(st: Store, caller: string, callerRole: Option<string>, id: string, role: string, k: string)
    requires k in st && st[k].Patient?
    ensures var r := AddPermission(st, caller, callerRole, id, role);
      r.Success? ==> r.value[k].Patient? && st[k].medicalInfo <= r.value[k].medicalInfo
    ensures var r := DeletePermission(st, caller, id);
      r.Success? ==> r.value[k].Patient? && st[k].medicalInfo <= r.value[k].medicalInfo
  {}

  /** A grant between two different ids keeps every grant mirrored. */
  lemma AddPermissionKeepsConsistent(st: Store, caller: string, callerRole: Option<string>, id: string, role: string)
    requires Consistent(st) && id != caller
    ensures var r := AddPermission(st, caller, callerRole, id, role);
      r.Success? ==> Consistent(r.value)
  {
    var r := AddPermission(st, caller, callerRole, id, role);
    if r.Success? {
      var st' := r.value;
      var granting, granted := Grant(id, Some(role)), Grant(caller, callerRole);
      forall a, g | a in st' && g in st'[a].allowedList ensures g.id in st' {
        if a == id {
          AddGrantIds(st[id].allowedList, granted, g.id);
        }
      }
      forall a, g | a in st' && st'[a].Patient? && g in st'[a].accessList ensures g.id in st' {
        if a == caller {
          AddGrantIds(st[caller].accessList, granting, g.id);
        }
      }
      forall a, b | a in st' && b in st'
        ensures HasId(st'[b].allowedList, a) <==> st'[a].Patient? && HasId(st'[a].accessList, b)
      {
        if b == id {
          AddGrantIds(st[id].allowedList, granted, a);
        }
        if a == caller {
          AddGrantIds(st[caller].accessList, granting, b);
        }
      }
    }
  }

  /** A revocation between two different ids keeps every grant mirrored. */
  lemma DeletePermissionKeepsConsistent(st: Store, caller: string, id: string)
    requires Consistent(st) && id != caller
    ensures var r := DeletePermission(st, caller, id);
      r.Success? ==> Consistent(r.value)
  {
    var r := DeletePermission(st, caller, id);
    if r.Success? {
      var st' := r.value;
      forall a, b | a in st' && b in st'
        ensures HasId(st'[b].allowedList, a) <==> st'[a].Patient? && HasId(st'[a].accessList, b)
      {
        if b == id {
          WithoutIdIds(st[id].allowedList, caller, a);
        }
        if a == caller {
          WithoutIdIds(st[caller].accessList, id, b);
        }
      }
    }
  }

  lemma WriteKeepsConsistent(st: Store, caller: string, role: Option<string>, patientId: string, info: string, date: string)
    requires Consistent(st)
    ensures var r := WritePatientRecord(st, caller, role, patientId, info, date);
      r.Success? ==> Consistent(r.value)
  {}

  /** Creating the first record under an id keeps grants mirrored. */
  lemma CreateFreshKeepsConsistent(st: Store, caller: string, role: Option<string>)
    requires Consistent(st) && caller !in st
    ensures CreatePatientRecord(st, caller, role).Success? ==> Consistent(CreatePatientRecord(st, caller, role).value)
    ensures CreateDoctorRecord(st, caller, role).Success? ==> Consistent(CreateDoctorRecord(st, caller, role).value)
  {}

  /** A self-grant breaks the mirror: the caller ends up on its own allowed list but not on its access list. */
  lemma SelfGrantBreaksMirror()
    ensures Consistent(map["alice" := EmptyPatient])
    ensures !Consistent(AddPermission(map["alice" := EmptyPatient], "alice", Some("client"), "alice", "client").value)
  {
    var st' := AddPermission(map["alice" := EmptyPatient], "alice", Some("client"), "alice", "client").value;
    assert st'["alice"].allowedList[0].id == "alice";
  }

  /** A self-revocation breaks the mirror: the caller's access-list entry for itself survives, its allowed-list entry does not. */
  lemma SelfRevokeBreaksMirror()
    ensures var st := map["a" := Patient([Grant("a", Some("client"))], [Grant("a", Some("client"))], [])];
      Consistent(st) && !Consistent(DeletePermission(st, "a", "a").value)
  {
    var st := map["a" := Patient([Grant("a", Some("client"))], [Grant("a", Some("client"))], [])];
    assert st["a"].accessList[0].id == "a";
    assert HasId(st["a"].allowedList, "a");
    var st' := DeletePermission(st, "a", "a").value;
    assert st'["a"].accessList[0].id == "a";
  }

  /** Re-creating a record that had granted access drops its side of the grant and leaves the other side dangling. */
  lemma RecreateBreaksMirror()
    ensures var st := AddPermission(map["alice" := EmptyPatient, "bob" := EmptyDoctor], "alice", Some("client"), "bob", "doctor").value;
      Consistent(st) && !Consistent(CreatePatientRecord(st, "alice", Some("client")).value)
  {
    var st0 := map["alice" := EmptyPatient, "bob" := EmptyDoctor];
    AddPermissionKeepsConsistent(st0, "alice", Some("client"), "bob", "doctor");
    var st := AddPermission(st0, "alice", Some("client"), "bob", "doctor").value;
    assert st["bob"].allowedList[0].id == "alice";
  }

  /**
   * Re-creating a record throws its medical log away: a patient record is replaced by one with
   * an empty log, or by a doctor record with no log at all.
   */
  lemma RecreateErasesLog(st: Store, caller: string, role: Option<string>)
    requires caller in st && st[caller].Patient?
    ensures CreatePatientRecord(st, caller, role).Success? ==>
      CreatePatientRecord(st, caller, role).value[caller] == Patient([], [], [])
    ensures CreateDoctorRecord(st, caller, role).Success? ==>
      CreateDoctorRecord(st, caller, role).value[caller] == Doctor([])
    ensures st[caller].medicalInfo != [] && HasRole(role, "client") ==>
      !(st[caller].medicalInfo <= CreatePatientRecord(st, caller, role).value[caller].medicalInfo)
  {}
}
