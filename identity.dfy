/** The identity gate: the caller's id taken from its credential, and its role attribute. */
module Identity {
  import opened Results
  import opened Strings

  /**
   * `getCallerId`: the credential has the form `<scheme>::<subject DN>::<issuer DN>`;
   * the id is the piece of the second `::`-segment that follows its first `CN=`, up to
   * the next `CN=`. A credential without `::` has no second segment, and dereferencing it
   * throws; a second segment without `CN=` yields no value (JavaScript's `undefined`).
   */
  function CallerId(credential: string): (r: Result<Option<string>>)
    ensures r.Failure? <==> Free(credential, "::")
    ensures r.Failure? ==> r.error == TypeError
    ensures r.Success? && r.value.Some? ==> Free(r.value.value, "CN=")
    ensures r.Success? ==> (r.value.None? <==> Free(Split(credential, "::")[1], "CN="))
  {
    var idParams := Split(credential, "::");
    if |idParams| < 2 then Failure(TypeError)
    else
      var names := Split(idParams[1], "CN=");
      SplitPiecesFree(idParams[1], "CN=");
      if |names| < 2 then Success(None) else Success(Some(names[1]))
  }

  /** `assertAttributeValue("role", expected)`: the attested role is present and equal to `expected`. */
  predicate HasRole(role: Option<string>, expected: string): (b: bool)
    ensures role.None? ==> !b
    ensures b ==> role.value == expected
  {
    role == Some(expected)
  }

  /** No `::` can start inside a prefix that has no colon. */
  lemma NoColonNoSeparator(a: string, b: string)
    requires ':' !in a
    ensures forall j | 0 <= j < |a| :: !OccursAt(a + "::" + b, "::", j)
  {
    var s := a + "::" + b;
    forall j | 0 <= j < |a| ensures !OccursAt(s, "::", j) {
      assert s[j] == a[j];
    }
  }

  /** No `CN=` can start inside a prefix that has none, because `CN=` cannot overlap itself. */
  lemma NoNameNoSeparator(a: string, b: string)
    requires Free(a, "CN=")
    ensures forall j | 0 <= j < |a| :: !OccursAt(a + "CN=" + b, "CN=", j)
  {
    var s := a + "CN=" + b;
    forall j | 0 <= j < |a| ensures !OccursAt(s, "CN=", j) {
      if j + 3 <= |a| {
        assert s[j..j + 3] == a[j..j + 3];
        assert !OccursAt(a, "CN=", j);
      } else {
        assert s[|a|] == 'C';
      }
    }
  }

  /** The second `::`-segment of `<scheme>::<subject>::<issuer>` is the subject, when neither has a colon. */
  lemma SubjectSegment(scheme: string, subject: string, issuer: string)
    requires ':' !in scheme && ':' !in subject
    ensures |Split(scheme + "::" + subject + "::" + issuer, "::")| >= 2
    ensures Split(scheme + "::" + subject + "::" + issuer, "::")[1] == subject
  {
    var afterScheme := subject + "::" + issuer;
    assert scheme + "::" + subject + "::" + issuer == scheme + "::" + afterScheme;
    NoColonNoSeparator(scheme, afterScheme);
    SplitAtFirst(scheme, "::", afterScheme);
    NoColonNoSeparator(subject, issuer);
    SplitAtFirst(subject, "::", issuer);
  }

  /** The second `CN=`-piece of `<head>CN=<cn>` is `cn`. */
  lemma LastCommonName(dnHead: string, cn: string)
    requires Free(dnHead, "CN=") && Free(cn, "CN=")
    ensures |Split(dnHead + "CN=" + cn, "CN=")| >= 2
    ensures Split(dnHead + "CN=" + cn, "CN=")[1] == cn
  {
    NoNameNoSeparator(dnHead, cn);
    SplitAtFirst(dnHead, "CN=", cn);
  }

  /** The second `CN=`-piece of `<head>CN=<cn>CN=<rest>` is `cn`. */
  lemma InnerCommonName(dnHead: string, cn: string, rest: string)
    requires Free(dnHead, "CN=") && Free(cn, "CN=")
    ensures |Split(dnHead + "CN=" + (cn + "CN=" + rest), "CN=")| >= 2
    ensures Split(dnHead + "CN=" + (cn + "CN=" + rest), "CN=")[1] == cn
  {
    NoNameNoSeparator(dnHead, cn + "CN=" + rest);
    SplitAtFirst(dnHead, "CN=", cn + "CN=" + rest);
    NoNameNoSeparator(cn, rest);
    SplitAtFirst(cn, "CN=", rest);
  }

  lemma Assoc(a: string, b: string, c: string)
    ensures a + b + c == a + (b + c)
  {}

  /**
   * For a credential `<scheme>::<subject>::<issuer>` whose scheme and subject have no colon,
   * where the subject is `<dn head>CN=<cn><dn tail>`, `cn` has no `CN=` and the tail is empty
   * or starts another `CN=` component, the caller id is `cn`.
   */
  lemma CallerIdOfCredential(scheme: string, subject: string, issuer: string, dnHead: string, cn: string, dnTail: string)
    requires ':' !in scheme && ':' !in subject
    requires subject == dnHead + "CN=" + cn + dnTail
    requires Free(dnHead, "CN=") && Free(cn, "CN=")
    requires dnTail == [] || (|dnTail| >= 3 && dnTail[..3] == "CN=")
    ensures CallerId(scheme + "::" + subject + "::" + issuer) == Success(Some(cn))
  {
    SubjectSegment(scheme, subject, issuer);
    if dnTail == [] {
      assert subject == dnHead + "CN=" + cn;
      LastCommonName(dnHead, cn);
    } else {
      var rest := dnTail[3..];
      assert dnTail == dnTail[..3] + rest;
      Assoc(cn, "CN=", rest);
      Assoc(dnHead + "CN=", cn, "CN=" + rest);
      assert subject == dnHead + "CN=" + (cn + "CN=" + rest);
      InnerCommonName(dnHead, cn, rest);
    }
  }

  /** A credential whose second `::`-piece has no `CN=` yields no id, and that is not a failure. */
  lemma CallerIdWithoutCommonName(credential: string)
    requires |Split(credential, "::")| >= 2
    requires Free(Split(credential, "::")[1], "CN=")
    ensures CallerId(credential) == Success(None)
  {}

  /** A string without the letter `N` has no `CN=`. */
  lemma NoLetterNoName(a: string)
    requires 'N' !in a
    ensures Free(a, "CN=")
  {
    forall j | 0 <= j <= |a| ensures !OccursAt(a, "CN=", j) {
      if j + 3 <= |a| {
        assert a[j..j + 3][1] == a[j + 1];
      }
    }
  }

  /** The id in a credential of the form Fabric's sample certificate authority issues to a client `user`. */
  lemma SampleCredential(user: string)
    requires ':' !in user && Free(user, "CN=")
    ensures CallerId("x509" + "::" + ("/OU=client/" + "CN=" + user) + "::" + "/CN=ca.org1.example.com")
         == Success(Some(user))
  {
    var dnHead := "/OU=client/";
    NoLetterNoName(dnHead);
    var subject := dnHead + "CN=" + user;
    assert subject == dnHead + "CN=" + user + "";
    CallerIdOfCredential("x509", subject, "/CN=ca.org1.example.com", dnHead, user, "");
  }
}
