/** The records the chaincode stores, and the list operations it performs on them. */
module Records {
  import opened Results

  /** An entry `{id, role}` of an access list or an allowed list. */
  datatype Grant = Grant(id: string, role: Option<string>)

  /** An entry `{date, writer_id, information}` of a patient's medical information. */
  datatype MedicalEntry = MedicalEntry(date: string, writerId: string, information: string)

  /** A stored record: a patient's has all three lists, a doctor's only the allowed list. */
  datatype Record =
    | Patient(accessList: seq<Grant>, allowedList: seq<Grant>, medicalInfo: seq<MedicalEntry>)
    | Doctor(allowedList: seq<Grant>)

  /** The world state: record by identity id. */
  type Store = map<string, Record>

  const EmptyPatient: Record := Patient([], [], [])
  const EmptyDoctor: Record := Doctor([])

  /** `s.filter(p)`: the elements of `s` that satisfy `p`, in their order. */
  function Filter<T>(s: seq<T>, p: T -> bool): (r: seq<T>)
    ensures |r| <= |s|
    ensures forall i | 0 <= i < |r| :: r[i] in s && p(r[i])
    ensures forall i | 0 <= i < |s| && p(s[i]) :: s[i] in r
  {
    if s == [] then [] else (if p(s[0]) then [s[0]] else []) + Filter(s[1..], p)
  }

  /** Filtering a concatenation filters each part: the survivors keep their relative order. */
  lemma {:induction false} FilterConcat<T>(a: seq<T>, b: seq<T>, p: T -> bool)
    ensures Filter(a + b, p) == Filter(a, p) + Filter(b, p)
  {
    if a == [] {
      assert a + b == b;
    } else {
      assert (a + b)[0] == a[0];
      assert (a + b)[1..] == a[1..] + b;
      FilterConcat(a[1..], b, p);
    }
  }

  /** A filter that every element passes changes nothing. */
  lemma {:induction false} FilterAll<T>(s: seq<T>, p: T -> bool)
    requires forall i | 0 <= i < |s| :: p(s[i])
    ensures Filter(s, p) == s
  {
    if s != [] {
      FilterAll(s[1..], p);
    }
  }

  /** Some entry of the list has this id. */
  predicate HasId(l: seq<Grant>, id: string) {
    exists i | 0 <= i < |l| :: l[i].id == id
  }

  /** The membership test as the contract writes it, `list.filter(e => e.id == id).length !== 0`. */
  lemma HasIdIsNonEmptyFilter(l: seq<Grant>, id: string)
    ensures HasId(l, id) <==> |Filter(l, (g: Grant) => g.id == id)| != 0
  {
    var matches := Filter(l, (g: Grant) => g.id == id);
    if matches != [] {
      assert matches[0] in l;
    }
    if HasId(l, id) {
      var i :| 0 <= i < |l| && l[i].id == id;
      assert l[i] in matches;
    }
  }

  /** No id occurs twice in the list. */
  predicate UniqueIds(l: seq<Grant>) {
    forall i, j | 0 <= i < j < |l| :: l[i].id != l[j].id
  }

  /**
   * The `push` guarded by a membership test on the id: `g` is appended unless an entry with
   * its id is already there, in which case that entry keeps its role and its position.
   */
  function AddGrant(l: seq<Grant>, g: Grant): (r: seq<Grant>)
    ensures l <= r && |r| <= |l| + 1
    ensures |r| == |l| + 1 <==> !HasId(l, g.id)
    ensures |r| == |l| + 1 ==> r[|l|] == g
    ensures HasId(r, g.id)
  {
    if HasId(l, g.id) then l else l + [g]
  }

  /** After the guarded push the list names exactly the ids it named before, and the pushed one. */
  lemma AddGrantIds(l: seq<Grant>, g: Grant, x: string)
    ensures HasId(AddGrant(l, g), x) <==> HasId(l, x) || x == g.id
    ensures forall e | e in AddGrant(l, g) :: e in l || e == g
  {
    if !HasId(l, g.id) {
      var r := l + [g];
      if HasId(r, x) && x != g.id {
        var i :| 0 <= i < |r| && r[i].id == x;
        assert r[i] == l[i];
      }
    }
  }

  /** `list.filter(e => e.id != id)`: every entry with this id is dropped, the rest keep their order. */
  function WithoutId(l: seq<Grant>, id: string): (r: seq<Grant>)
    ensures forall g :: g in r <==> g in l && g.id != id
    ensures !HasId(r, id)
  {
    var r := Filter(l, (g: Grant) => g.id != id);
    assert !HasId(r, id) by {
      forall i | 0 <= i < |r| ensures r[i].id != id {
        assert r[i] in r;
      }
    }
    r
  }

  /** After the removal the list names exactly the ids it named before, except the removed one. */
  lemma WithoutIdIds(l: seq<Grant>, id: string, x: string)
    ensures HasId(WithoutId(l, id), x) <==> HasId(l, x) && x != id
  {
    var r := WithoutId(l, id);
    if HasId(r, x) {
      var i :| 0 <= i < |r| && r[i].id == x;
      assert r[i] in r;
    }
    if HasId(l, x) && x != id {
      var i :| 0 <= i < |l| && l[i].id == x;
      assert l[i] in r;
    }
  }

  /** `list.filter(e => e.role == 'doctor')`: the entries whose role is `"doctor"`, in their order. */
  function Doctors(l: seq<Grant>): (r: seq<Grant>)
    ensures forall g :: g in r <==> g in l && g.role == Some("doctor")
  {
    Filter(l, (g: Grant) => g.role == Some("doctor"))
  }

  /** Adding an id that is already present changes nothing, so a repeated grant is a no-op. */
  lemma AddGrantIdempotent(l: seq<Grant>, g: Grant)
    ensures AddGrant(AddGrant(l, g), g) == AddGrant(l, g)
  {
    assert HasId(AddGrant(l, g), g.id);
  }

  /** The guarded push keeps ids unique. */
  lemma AddGrantKeepsUnique(l: seq<Grant>, g: Grant)
    requires UniqueIds(l)
    ensures UniqueIds(AddGrant(l, g))
  {
    if !HasId(l, g.id) {
      var r := l + [g];
      forall i, j | 0 <= i < j < |r| ensures r[i].id != r[j].id {
        if j == |l| {
          assert r[i] == l[i];
        }
      }
    }
  }

  /** Dropping entries keeps ids unique. */
  lemma {:induction false} FilterKeepsUnique(l: seq<Grant>, p: Grant -> bool)
    requires UniqueIds(l)
    ensures UniqueIds(Filter(l, p))
  {
    if l != [] {
      var tail := l[1..];
      assert UniqueIds(tail) by {
        forall i, j | 0 <= i < j < |tail| ensures tail[i].id != tail[j].id {
          assert tail[i] == l[i + 1] && tail[j] == l[j + 1];
        }
      }
      FilterKeepsUnique(tail, p);
      var rest := Filter(tail, p);
      if p(l[0]) {
        assert !HasId(tail, l[0].id) by {
          forall k | 0 <= k < |tail| ensures tail[k].id != l[0].id {
            assert tail[k] == l[k + 1];
          }
        }
        FreshHeadUnique(l[0], rest, tail);
      } else {
        assert Filter(l, p) == rest;
      }
    }
  }

  /** Putting an entry whose id the list lacks in front of a unique sub-collection keeps ids unique. */
  lemma FreshHeadUnique(g: Grant, rest: seq<Grant>, from: seq<Grant>)
    requires UniqueIds(rest) && !HasId(from, g.id)
    requires forall i | 0 <= i < |rest| :: rest[i] in from
    ensures UniqueIds([g] + rest)
  {
    var r := [g] + rest;
    forall i, j | 0 <= i < j < |r| ensures r[i].id != r[j].id {
      assert r[j] == rest[j - 1];
      if i > 0 {
        assert r[i] == rest[i - 1];
      }
    }
  }

  lemma WithoutIdKeepsUnique(l: seq<Grant>, id: string)
    requires UniqueIds(l)
    ensures UniqueIds(WithoutId(l, id))
  {
    FilterKeepsUnique(l, (g: Grant) => g.id != id);
  }

  /** Removing an id twice is the same as removing it once. */
  lemma WithoutIdIdempotent(l: seq<Grant>, id: string)
    ensures WithoutId(WithoutId(l, id), id) == WithoutId(l, id)
  {
    var r := WithoutId(l, id);
    forall i | 0 <= i < |r| ensures r[i].id != id {
      assert r[i] in r;
    }
    FilterAll(r, (g: Grant) => g.id != id);
  }

  /** Removing an id that was just appended, and was not there before, gives back the original list. */
  lemma WithoutIdUndoesAdd(l: seq<Grant>, g: Grant)
    requires !HasId(l, g.id)
    ensures WithoutId(AddGrant(l, g), g.id) == l
  {
    var p := (x: Grant) => x.id != g.id;
    FilterConcat(l, [g], p);
    FilterAll(l, p);
    assert Filter([g], p) == [];
  }

  /** Removing ids from a list in which none of them occurs changes nothing. */
  lemma WithoutIdAbsent(l: seq<Grant>, id: string)
    requires !HasId(l, id)
    ensures WithoutId(l, id) == l
  {
    FilterAll(l, (x: Grant) => x.id != id);
  }

  /** The removal works entry by entry, so the entries it keeps stay in their order. */
  lemma WithoutIdConcat(a: seq<Grant>, b: seq<Grant>, id: string)
    ensures WithoutId(a + b, id) == WithoutId(a, id) + WithoutId(b, id)
  {
    FilterConcat(a, b, (g: Grant) => g.id != id);
  }

  /** The doctor list is exactly the doctor entries, in the order of the access list. */
  lemma DoctorsConcat(a: seq<Grant>, b: seq<Grant>)
    ensures Doctors(a + b) == Doctors(a) + Doctors(b)
  {
    FilterConcat(a, b, (g: Grant) => g.role == Some("doctor"));
  }
}
