/**
 * The read-only transactions. Each reads at most one record and never writes; a missing field
 * that is only serialised (JavaScript's `JSON.stringify(undefined)`) yields `None`, a
 * missing access list that is filtered is a `TypeError`.
 */
module Queries {
  import opened Results
  import opened Records
  import opened Identity

  /** `getMyMedicalInfo`: the caller's own medical information. */
  function GetMyMedicalInfo(st: Store, caller: string): (r: Result<Option<seq<MedicalEntry>>>)
    ensures r.Failure? <==> caller !in st
    ensures r.Failure? ==> r.error == NotFound(caller)
    ensures r.Success? ==> (r.value.Some? <==> st[caller].Patient?)
    ensures r.Success? && r.value.Some? ==> r.value.value == st[caller].medicalInfo
  {
    if caller !in st then Failure(NotFound(caller))
    else match st[caller]
      case Patient(_, _, info) => Success(Some(info))
      case Doctor(_) => Success(None)
  }

  /** `getMedicalInfoByPatientId`: a patient's medical information, for a caller on its access list. */
  function GetMedicalInfoByPatientId(st: Store, caller: string, patientId: string): (r: Result<seq<MedicalEntry>>)
    ensures r.Success? <==>
      patientId in st && st[patientId].Patient? && HasId(st[patientId].accessList, caller)
    ensures r.Success? ==> r.value == st[patientId].medicalInfo
    ensures patientId !in st ==> r == Failure(NotFound(patientId))
    ensures patientId in st && st[patientId].Doctor? ==> r == Failure(TypeError)
    ensures patientId in st && st[patientId].Patient? && !HasId(st[patientId].accessList, caller)
        ==> r == Failure(NotAllowed(caller))
  {
    if patientId !in st then Failure(NotFound(patientId))
    else match st[patientId]
      case Doctor(_) => Failure(TypeError)
      case Patient(access, _, info) =>
        if !HasId(access, caller) then Failure(NotAllowed(caller)) else Success(info)
  }

  /** `getDoctorList`: for a client, the doctor entries of its own access list. */
  function GetDoctorList(st: Store, caller: string, role: Option<string>): (r: Result<seq<Grant>>)
    ensures r.Success? <==> HasRole(role, "client") && caller in st && st[caller].Patient?
    ensures !HasRole(role, "client") ==> r == Failure(RoleDenied("client"))
    ensures HasRole(role, "client") && caller !in st ==> r == Failure(NotFound(caller))
    ensures HasRole(role, "client") && caller in st && st[caller].Doctor? ==> r == Failure(TypeError)
    ensures r.Success? ==>
      forall g :: g in r.value <==> g in st[caller].accessList && g.role == Some("doctor")
  {
    if !HasRole(role, "client") then Failure(RoleDenied("client"))
    else if caller !in st then Failure(NotFound(caller))
    else match st[caller]
      case Doctor(_) => Failure(TypeError)
      case Patient(access, _, _) => Success(Doctors(access))
  }

  /** `getAccessList`: for a client, its own access list. */
  function GetAccessList(st: Store, caller: string, role: Option<string>): (r: Result<Option<seq<Grant>>>)
    ensures r.Success? <==> HasRole(role, "client") && caller in st
    ensures !HasRole(role, "client") ==> r == Failure(RoleDenied("client"))
    ensures HasRole(role, "client") && caller !in st ==> r == Failure(NotFound(caller))
    ensures r.Success? ==> (r.value.Some? <==> st[caller].Patient?)
    ensures r.Success? && r.value.Some? ==> r.value.value == st[caller].accessList
  {
    if !HasRole(role, "client") then Failure(RoleDenied("client"))
    else if caller !in st then Failure(NotFound(caller))
    else match st[caller]
      case Doctor(_) => Success(None)
      case Patient(access, _, _) => Success(Some(access))
  }

  /** `getAllowedList`: the caller's own allowed list; any role may ask. */
  function GetAllowedList(st: Store, caller: string): (r: Result<seq<Grant>>)
    ensures r.Success? <==> caller in st
    ensures r.Failure? ==> r.error == NotFound(caller)
    ensures r.Success? ==> r.value == st[caller].allowedList
  {
    if caller !in st then Failure(NotFound(caller)) else Success(st[caller].allowedList)
  }

  /**
   * `checkMyPermissionStatus`: whether the caller is on the patient's access list. A caller
   * who is not is answered `false`, not refused.
   */
  function CheckMyPermissionStatus(st: Store, caller: string, patientId: string): (r: Result<bool>)
    ensures r.Failure? <==> patientId !in st || st[patientId].Doctor?
    ensures patientId !in st ==> r == Failure(NotFound(patientId))
    ensures patientId in st && st[patientId].Doctor? ==> r == Failure(TypeError)
    ensures r.Success? ==> (r.value <==> exists i | 0 <= i < |st[patientId].accessList| :: st[patientId].accessList[i].id == caller)
  {
    if patientId !in st then Failure(NotFound(patientId))
    else match st[patientId]
      case Doctor(_) => Failure(TypeError)
      case Patient(access, _, _) => Success(HasId(access, caller))
  }

  /**
   * The permission check and the guarded read agree: the read succeeds exactly when the check
   * answers `true`, is refused exactly when it answers `false`, and fails like it otherwise.
   */
  lemma PermissionStatusGatesInfo(st: Store, caller: string, patientId: string)
    ensures GetMedicalInfoByPatientId(st, caller, patientId).Success?
        <==> CheckMyPermissionStatus(st, caller, patientId) == Success(true)
    ensures CheckMyPermissionStatus(st, caller, patientId) == Success(false)
        <==> GetMedicalInfoByPatientId(st, caller, patientId) == Failure(NotAllowed(caller))
    ensures CheckMyPermissionStatus(st, caller, patientId).Failure?
        ==> GetMedicalInfoByPatientId(st, caller, patientId) == Failure(CheckMyPermissionStatus(st, caller, patientId).error)
  {}

  /** The doctor list is the access list with the non-doctor entries dropped, order kept. */
  lemma DoctorListFiltersAccessList(st: Store, caller: string, role: Option<string>)
    ensures GetDoctorList(st, caller, role).Success?
        <==> GetAccessList(st, caller, role).Success? && GetAccessList(st, caller, role).value.Some?
    ensures GetDoctorList(st, caller, role).Success? ==>
      GetDoctorList(st, caller, role).value == Doctors(GetAccessList(st, caller, role).value.value)
  {}
}
