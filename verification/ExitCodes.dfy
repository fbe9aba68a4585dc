/** `crates/hekma-adapter-api/src/manifest.rs`: the `[exit_codes]` section's two disjoint classes. */
module ExitCodes {
  import opened Common

  datatype ExitClass = RestartRequested | Clean

  datatype CodeError = OutOfRange(code: nat) | Repeated(code: nat) | InBoth

  datatype Classes = Classes(restartRequested: seq<nat>, clean: seq<nat>)

  datatype Resolution = Resolved(classes: Classes) | Rejected(error: CodeError)

  predicate InRange(codes: seq<nat>) { forall c :: c in codes ==> c <= 255 }

  predicate NoRepeats(codes: seq<nat>) { forall i, j :: 0 <= i < j < |codes| ==> codes[i] != codes[j] }

  predicate Disjoint(a: seq<nat>, b: seq<nat>) { forall c :: c in a ==> c !in b }

  /** Each list in range and without repeats, and the two without a common code. */
  predicate Valid(s: Classes) {
    InRange(s.restartRequested) && NoRepeats(s.restartRequested) && InRange(s.clean) && NoRepeats(s.clean)
    && Disjoint(s.restartRequested, s.clean)
  }

  /** One list: the range first, then repeats, with a set of the codes seen. */
  method CheckList(codes: seq<nat>) returns (error: Option<CodeError>)
    ensures error.None? <==> InRange(codes) && NoRepeats(codes)
    ensures error.Some? && error.value.OutOfRange? ==> error.value.code in codes && error.value.code > 255
    ensures error.Some? && error.value.Repeated? ==>
              InRange(codes) && exists i, j :: 0 <= i < j < |codes| && codes[i] == codes[j] == error.value.code
    ensures error.Some? ==> !error.value.InBoth?
  {
    for i := 0 to |codes|
      invariant forall k :: 0 <= k < i ==> codes[k] <= 255
    {
      if codes[i] > 255 {
        assert codes[i] in codes;
        return Some(OutOfRange(codes[i]));
      }
    }
    var seen: set<nat> := {};
    for i := 0 to |codes|
      invariant forall c :: c in seen <==> c in codes[..i]
      invariant NoRepeats(codes[..i])
    {
      if codes[i] in seen {
        var k :| 0 <= k < i && codes[k] == codes[i];
        return Some(Repeated(codes[i]));
      }
      seen := seen + {codes[i]};
      assert codes[..i + 1] == codes[..i] + [codes[i]];
    }
    assert codes[..|codes|] == codes;
    error := None;
  }

  /** `ExitCodes::classes`. */
  method ResolveClasses(section: Classes) returns (r: Resolution)
    ensures r == Resolved(section) <==> Valid(section)
    ensures r.Resolved? ==> r.classes == section
    ensures r == Rejected(InBoth) <==>
              && InRange(section.restartRequested) && NoRepeats(section.restartRequested)
              && InRange(section.clean) && NoRepeats(section.clean)
              && !Disjoint(section.restartRequested, section.clean)
  {
    var error := CheckList(section.restartRequested);
    if error.Some? {
      return Rejected(error.value);
    }
    error := CheckList(section.clean);
    if error.Some? {
      return Rejected(error.value);
    }
    var overlap: seq<nat> := [];
    for i := 0 to |section.restartRequested|
      invariant overlap == [] <==> forall k :: 0 <= k < i ==> section.restartRequested[k] !in section.clean
    {
      if section.restartRequested[i] in section.clean {
        overlap := overlap + [section.restartRequested[i]];
      }
    }
    r := if overlap != [] then Rejected(InBoth) else Resolved(section);
  }

  /** `ExitCodeClasses::class_of`: a code in both lists, or in neither, has no class. */
  function ClassOf(s: Classes, code: nat): Option<ExitClass> {
    match (code in s.restartRequested, code in s.clean)
    case (true, false) => Some(RestartRequested)
    case (false, true) => Some(Clean)
    case _ => None
  }

  /** On validated classes, classification is exactly list membership. */
  lemma ClassIsMembership(s: Classes, code: nat)
    requires Valid(s)
    ensures ClassOf(s, code) == Some(RestartRequested) <==> code in s.restartRequested
    ensures ClassOf(s, code) == Some(Clean) <==> code in s.clean
  {
  }

  lemma {:induction false} SetOfDistinct(codes: seq<nat>) returns (s: set<nat>)
    requires NoRepeats(codes)
    ensures |s| == |codes| && forall c :: c in s <==> c in codes
  {
    s := {};
    if codes != [] {
      var n := |codes| - 1;
      var rest := SetOfDistinct(codes[..n]);
      assert codes == codes[..n] + [codes[n]];
      assert codes[n] !in codes[..n];
      s := rest + {codes[n]};
    }
  }

  lemma {:induction false} SmallSet(s: set<nat>, n: nat)
    requires forall c :: c in s ==> c < n
    ensures |s| <= n
  {
    if n > 0 {
      var rest := s - {n - 1};
      SmallSet(rest, n - 1);
      assert s <= rest + {n - 1};
      assert |s| <= |rest| + 1 by {
        if n - 1 in s {
          assert s == rest + {n - 1};
        } else {
          assert s == rest;
        }
      }
    } else {
      assert s == {};
    }
  }

  /** The two lists together never hold more codes than there are. */
  lemma AtMost256(s: Classes)
    requires Valid(s)
    ensures |s.restartRequested| + |s.clean| <= 256
  {
    var both := s.restartRequested + s.clean;
    forall i, j | 0 <= i < j < |both|
      ensures both[i] != both[j]
    {
      var n := |s.restartRequested|;
      if i < n <= j {
        assert both[i] in s.restartRequested && both[j] in s.clean;
      } else if j < n {
        assert both[i] == s.restartRequested[i] && both[j] == s.restartRequested[j];
      } else {
        assert both[i] == s.clean[i - n] && both[j] == s.clean[j - n];
      }
    }
    var all := SetOfDistinct(both);
    forall c | c in all
      ensures c < 256
    {
      assert c in s.restartRequested || c in s.clean;
    }
    SmallSet(all, 256);
  }
}
