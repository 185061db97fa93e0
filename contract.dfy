/**
 * The `Kyp` contract: the world state as a mutable map, and the transactions that write it as
 * methods that read records, change local copies and put them back, key by key.
 */
module Contract {
  import opened Results
  import opened Records
  import opened Identity
  import Transitions

  class Kyp {
    /** The world state, record by identity id. */
    var state: Store

    constructor ()
      ensures state == map[]
    {
      state := map[];
    }

    method CreatePatientRecord(caller: string, role: Option<string>) returns (r: Result<bool>)
      modifies this
      ensures Transitions.Commits(Transitions.CreatePatientRecord(old(state), caller, role), old(state), r, state)
    {
      if !HasRole(role, "client") {
        return Failure(RoleDenied("client"));
      }
      var record := Patient([], [], []);
      state := state[caller := record];
      return Success(true);
    }

    method CreateDoctorRecord(caller: string, role: Option<string>) returns (r: Result<bool>)
      modifies this
      ensures Transitions.Commits(Transitions.CreateDoctorRecord(old(state), caller, role), old(state), r, state)
    {
      if !HasRole(role, "doctor") {
        return Failure(RoleDenied("doctor"));
      }
      var record := Doctor([]);
      state := state[caller := record];
      return Success(true);
    }

    method WritePatientRecord(caller: string, role: Option<string>, patientId: string, info: string, date: string)
      returns (r: Result<bool>)
      modifies this
      ensures Transitions.Commits(Transitions.WritePatientRecord(old(state), caller, role, patientId, info, date), old(state), r, state)
    {
      if !HasRole(role, "doctor") {
        return Failure(RoleDenied("doctor"));
      }
      if patientId !in state {
        return Failure(NotFound(patientId));
      }
      var record := state[patientId];
      if !record.Patient? {
        return Failure(TypeError);
      }
      if !HasId(record.accessList, caller) {
        return Failure(NotAllowed(caller));
      }
      var entry := MedicalEntry(date, caller, info);
      record := record.(medicalInfo := record.medicalInfo + [entry]);
      state := state[patientId := record];
      return Success(true);
    }

    method AddPermission(caller: string, callerRole: Option<string>, id: string, role: string) returns (r: Result<bool>)
      modifies this
      ensures Transitions.Commits(Transitions.AddPermission(old(state), caller, callerRole, id, role), old(state), r, state)
    {
      if caller !in state {
        return Failure(NotFound(caller));
      }
      var record := state[caller];
      if id !in state {
        return Failure(NotFound(id));
      }
      var recordAllowed := state[id];
      if !record.Patient? {
        return Failure(TypeError);
      }
      ghost var before := state;
      if !HasId(record.accessList, id) {
        record := record.(accessList := record.accessList + [Grant(id, Some(role))]);
      }
      assert record == before[caller].(accessList := AddGrant(before[caller].accessList, Grant(id, Some(role))));
      if !HasId(recordAllowed.allowedList, caller) {
        recordAllowed := recordAllowed.(allowedList := recordAllowed.allowedList + [Grant(caller, callerRole)]);
      }
      assert recordAllowed == before[id].(allowedList := AddGrant(before[id].allowedList, Grant(caller, callerRole)));
      state := state[caller := record];
      state := state[id := recordAllowed];
      return Success(true);
    }

    method DeletePermission(caller: string, id: string) returns (r: Result<bool>)
      modifies this
      ensures Transitions.Commits(Transitions.DeletePermission(old(state), caller, id), old(state), r, state)
    {
      if caller !in state {
        return Failure(NotFound(caller));
      }
      var record := state[caller];
      if id !in state {
        return Failure(NotFound(id));
      }
      var recordAllowed := state[id];
      if !record.Patient? {
        return Failure(TypeError);
      }
      record := record.(accessList := WithoutId(record.accessList, id));
      recordAllowed := recordAllowed.(allowedList := WithoutId(recordAllowed.allowedList, caller));
      state := state[caller := record];
      state := state[id := recordAllowed];
      return Success(true);
    }
  }

  /**
   * The life of one grant: client `alice` and doctor `bob` create their records, `alice`
   * grants `bob` access, `bob` writes one entry, `alice` revokes the grant, and a second write
   * by `bob` is refused. Returns the log after the first write and the outcome of the second.
   */
  method GrantLifecycle(date: string) returns (log: seq<MedicalEntry>, denied: Result<bool>)
    ensures log == [MedicalEntry(date, "bob", "checkup notes")]
    ensures denied == Failure(NotAllowed("bob"))
  {
    var kyp := new Kyp();
    var r := kyp.CreatePatientRecord("alice", Some("client"));
    r := kyp.CreateDoctorRecord("bob", Some("doctor"));
    r := kyp.AddPermission("alice", Some("client"), "bob", "doctor");
    assert kyp.state["alice"].accessList == [Grant("bob", Some("doctor"))];
    assert kyp.state["bob"].allowedList == [Grant("alice", Some("client"))];
    r := kyp.WritePatientRecord("bob", Some("doctor"), "alice", "checkup notes", date);
    assert r == Success(true);
    log := kyp.state["alice"].medicalInfo;
    r := kyp.DeletePermission("alice", "bob");
    assert kyp.state["alice"].accessList == [] && kyp.state["bob"].allowedList == [];
    denied := kyp.WritePatientRecord("bob", Some("doctor"), "alice", "more notes", date);
  }
}
