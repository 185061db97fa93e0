/**
 * The transactions that write the world state, as functions from the state before to the
 * outcome: the new state on success, the error on failure (a failing transaction writes
 * nothing, since every `putState` comes after every check).
 */
module Transitions {
  import opened Results
  import opened Records
  import opened Identity

  /** `createPatientRecord`: a client stores an empty patient record under its id, replacing any record there. */
  function CreatePatientRecord(st: Store, caller: string, role: Option<string>): (r: Result<Store>)
    ensures r.Failure? <==> !HasRole(role, "client")
    ensures r.Failure? ==> r.error == RoleDenied("client")
    ensures r.Success? ==> r.value.Keys == st.Keys + {caller}
    ensures r.Success? ==> r.value[caller] == Patient([], [], [])
    ensures r.Success? ==> forall k | k in st && k != caller :: r.value[k] == st[k]
  {
    if !HasRole(role, "client") then Failure(RoleDenied("client"))
    else Success(st[caller := EmptyPatient])
  }

  /** `createDoctorRecord`: a doctor stores an empty doctor record under its id, replacing any record there. */
  function CreateDoctorRecord(st: Store, caller: string, role: Option<string>): (r: Result<Store>)
    ensures r.Failure? <==> !HasRole(role, "doctor")
    ensures r.Failure? ==> r.error == RoleDenied("doctor")
    ensures r.Success? ==> r.value.Keys == st.Keys + {caller}
    ensures r.Success? ==> r.value[caller] == Doctor([])
    ensures r.Success? ==> forall k | k in st && k != caller :: r.value[k] == st[k]
  {
    if !HasRole(role, "doctor") then Failure(RoleDenied("doctor"))
    else Success(st[caller := EmptyDoctor])
  }

  /**
   * `writePatientRecord`: a doctor on a patient's access list appends one entry, dated `date`,
   * to that patient's medical information.
   */
  function WritePatientRecord(st: Store, caller: string, role: Option<string>, patientId: string, info: string, date: string): (r: Result<Store>)
    ensures r.Success? <==>
      HasRole(role, "doctor") && patientId in st && st[patientId].Patient? && HasId(st[patientId].accessList, caller)
    ensures !HasRole(role, "doctor") ==> r == Failure(RoleDenied("doctor"))
    ensures HasRole(role, "doctor") && patientId !in st ==> r == Failure(NotFound(patientId))
    ensures HasRole(role, "doctor") && patientId in st && st[patientId].Doctor? ==> r == Failure(TypeError)
    ensures HasRole(role, "doctor") && patientId in st && st[patientId].Patient? && !HasId(st[patientId].accessList, caller)
        ==> r == Failure(NotAllowed(caller))
    ensures r.Success? ==> r.value.Keys == st.Keys
    ensures r.Success? ==> forall k | k in st && k != patientId :: r.value[k] == st[k]
    ensures r.Success? ==> r.value[patientId].Patient?
    ensures r.Success? ==> r.value[patientId].accessList == st[patientId].accessList
    ensures r.Success? ==> r.value[patientId].allowedList == st[patientId].allowedList
    ensures r.Success? ==> r.value[patientId].medicalInfo == st[patientId].medicalInfo + [MedicalEntry(date, caller, info)]
  {
    if !HasRole(role, "doctor") then Failure(RoleDenied("doctor"))
    else if patientId !in st then Failure(NotFound(patientId))
    else match st[patientId]
      case Doctor(_) => Failure(TypeError)
      case Patient(access, allowed, log) =>
        if !HasId(access, caller) then Failure(NotAllowed(caller))
        else Success(st[patientId := Patient(access, allowed, log + [MedicalEntry(date, caller, info)])])
  }

  /**
   * `addPermission`: the caller puts `{id, role}` on its own access list and `{caller, callerRole}`
   * on the allowed list of `id`, each only if that id is not there yet. When `id` is the caller
   * itself both copies of its record are written under the same key, and the second write, the
   * one with the new allowed list, is the one that stays.
   */
  function AddPermission(st: Store, caller: string, callerRole: Option<string>, id: string, role: string): (r: Result<Store>)
    ensures r.Success? <==> caller in st && id in st && st[caller].Patient?
    ensures caller !in st ==> r == Failure(NotFound(caller))
    ensures caller in st && id !in st ==> r == Failure(NotFound(id))
    ensures caller in st && id in st && st[caller].Doctor? ==> r == Failure(TypeError)
    ensures r.Success? ==> r.value.Keys == st.Keys
    ensures r.Success? ==> forall k | k in st && k != caller && k != id :: r.value[k] == st[k]
    ensures r.Success? && id != caller ==>
      r.value[caller] == st[caller].(accessList := AddGrant(st[caller].accessList, Grant(id, Some(role))))
    ensures r.Success? && id != caller ==>
      r.value[id] == st[id].(allowedList := AddGrant(st[id].allowedList, Grant(caller, callerRole)))
    ensures r.Success? && id == caller ==>
      r.value[caller] == st[caller].(allowedList := AddGrant(st[caller].allowedList, Grant(caller, callerRole)))
  {
    if caller !in st then Failure(NotFound(caller))
    else if id !in st then Failure(NotFound(id))
    else if st[caller].Doctor? then Failure(TypeError)
    else
      var granted := st[id].(allowedList := AddGrant(st[id].allowedList, Grant(caller, callerRole)));
      if id == caller then Success(st[caller := granted])
      else
        var granting := st[caller].(accessList := AddGrant(st[caller].accessList, Grant(id, Some(role))));
        Success(st[caller := granting][id := granted])
  }

  /**
   * `deletePermission`: the caller drops every entry for `id` from its access list and `id`
   * drops every entry for the caller from its allowed list. As for `addPermission`, when `id`
   * is the caller only the allowed-list change is kept.
   */
  function DeletePermission(st: Store, caller: string, id: string): (r: Result<Store>)
    ensures r.Success? <==> caller in st && id in st && st[caller].Patient?
    ensures caller !in st ==> r == Failure(NotFound(caller))
    ensures caller in st && id !in st ==> r == Failure(NotFound(id))
    ensures caller in st && id in st && st[caller].Doctor? ==> r == Failure(TypeError)
    ensures r.Success? ==> r.value.Keys == st.Keys
    ensures r.Success? ==> forall k | k in st && k != caller && k != id :: r.value[k] == st[k]
    ensures r.Success? && id != caller ==>
      r.value[caller] == st[caller].(accessList := WithoutId(st[caller].accessList, id))
    ensures r.Success? && id != caller ==>
      r.value[id] == st[id].(allowedList := WithoutId(st[id].allowedList, caller))
    ensures r.Success? && id == caller ==>
      r.value[caller] == st[caller].(allowedList := WithoutId(st[caller].allowedList, caller))
  {
    if caller !in st then Failure(NotFound(caller))
    else if id !in st then Failure(NotFound(id))
    else if st[caller].Doctor? then Failure(TypeError)
    else
      var revoked := st[id].(allowedList := WithoutId(st[id].allowedList, caller));
      if id == caller then Success(st[caller := revoked])
      else
        var revoking := st[caller].(accessList := WithoutId(st[caller].accessList, id));
        Success(st[caller := revoking][id := revoked])
  }

  /**
   * What an invocation did, `r` and the state `after` it left, is what `spec` prescribes from
   * the state `before`: the new state and `true` on success, the error and no write on failure.
   */
  predicate Commits(spec: Result<Store>, before: Store, r: Result<bool>, after: Store) {
    match spec
    case Success(st) => r == Success(true) && after == st
    case Failure(e) => r == Failure(e) && after == before
  }
}
