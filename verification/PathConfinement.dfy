/** Keeping declared paths inside the Agent Home: `is_safe_relative_path` and
    `ConfigMapping::validate` (`crates/hekma-adapter-api/src/config.rs`), and the idle file of
    `Drain::spec` (`crates/hekma-adapter-api/src/manifest.rs`) under Unix rules. */
module PathConfinement {
  import opened Common
  import opened Urls

  // ---------- Segments ----------

  predicate IsSlash(c: char) { c == '/' }

  predicate IsEitherSlash(c: char) { c == '/' || c == '\\' }

  /** `str::split`: always at least one segment. */
  function Segments(s: string, sep: char -> bool): (r: seq<string>)
    ensures r != []
  {
    if s == "" then [""]
    else
      var rest := Segments(s[1..], sep);
      if sep(s[0]) then [""] + rest else [[s[0]] + rest[0]] + rest[1..]
  }

  // ---------- Walking a path ----------

  /** Where segments lead from `here`, the directories below the home; `None` once above it. */
  function Walk(here: seq<string>, segments: seq<string>): Option<seq<string>>
    decreases segments
  {
    if segments == [] then Some(here)
    else if segments[0] == "" || segments[0] == "." then Walk(here, segments[1..])
    else if segments[0] == ".." then if here == [] then None else Walk(here[..|here| - 1], segments[1..])
    else Walk(here + [segments[0]], segments[1..])
  }

  /** A letter and a colon first: a Windows drive. */
  predicate HasDrive(path: string) {
    2 <= |path| && ('a' <= path[0] <= 'z' || 'A' <= path[0] <= 'Z') && path[1] == ':'
  }

  predicate IsRooted(path: string, sep: char -> bool) { path != "" && sep(path[0]) }

  // ---------- The two checks ----------

  predicate IsPlain(segment: string) { segment != "" && segment != "." && segment != ".." }

  predicate IsSafeRelativePath(path: string) {
    && path != ""
    && !IsRooted(path, IsEitherSlash)
    && !HasDrive(Segments(path, IsEitherSlash)[0])
    && forall i :: 0 <= i < |Segments(path, IsEitherSlash)| ==> IsPlain(Segments(path, IsEitherSlash)[i])
  }

  datatype Target = Env(name: string) | Flag(flag: string) | FileTarget(path: string, key: string)

  /** One rule of `ConfigMapping::validate`. */
  predicate RuleIsValid(key: string, target: Target) {
    && !Blank(key)
    && match target
       case Env(name) => !Blank(name)
       case Flag(flag) => !Blank(flag)
       case FileTarget(path, fileKey) => !Blank(path) && !Blank(fileKey) && IsSafeRelativePath(path)
  }

  /** The rules in key order: the first invalid one is reported. */
  method Validate(rules: seq<(string, Target)>) returns (bad: Option<string>)
    ensures bad.None? <==> forall i :: 0 <= i < |rules| ==> RuleIsValid(rules[i].0, rules[i].1)
    ensures bad.Some? ==> exists i ::
              && 0 <= i < |rules| && rules[i].0 == bad.value && !RuleIsValid(rules[i].0, rules[i].1)
              && forall j :: 0 <= j < i ==> RuleIsValid(rules[j].0, rules[j].1)
  {
    for i := 0 to |rules|
      invariant forall j :: 0 <= j < i ==> RuleIsValid(rules[j].0, rules[j].1)
    {
      if !RuleIsValid(rules[i].0, rules[i].1) {
        return Some(rules[i].0);
      }
    }
    bad := None;
  }

  datatype IdleError = EmptyPath | ControlInPath | AbsolutePath | ParentInPath

  datatype DrainSpec = DrainSpec(idleFile: Option<string>, timeoutMs: nat)

  datatype Resolution = Resolved(spec: DrainSpec) | BadTimeout | BadIdleFile(error: IdleError)

  /** The idle file's own checks. On Unix a path's components are its slash-separated segments
      without the empty and current-directory ones, and no component is a drive. */
  function CheckIdleFile(path: string): Option<IdleError> {
    if Blank(path) then Some(EmptyPath)
    else if HasControl(path) then Some(ControlInPath)
    else if IsRooted(path, IsSlash) then Some(AbsolutePath)
    else if ".." in Segments(path, IsSlash) then Some(ParentInPath)
    else None
  }

  /** `Drain::spec`. */
  function Spec(idleFile: Option<string>, timeoutMs: nat): Resolution {
    if !(1 <= timeoutMs <= 600_000) then BadTimeout
    else if idleFile.None? then Resolved(DrainSpec(None, timeoutMs))
    else
      match CheckIdleFile(idleFile.value)
      case Some(e) => BadIdleFile(e)
      case None => Resolved(DrainSpec(idleFile, timeoutMs))
  }

  // ---------- Accepted paths stay inside ----------

  lemma {:induction false} PlainWalk(here: seq<string>, segments: seq<string>)
    requires forall i :: 0 <= i < |segments| ==> IsPlain(segments[i])
    ensures Walk(here, segments) == Some(here + segments)
    decreases segments
  {
    if segments == [] {
      assert here + segments == here;
    } else {
      PlainWalk(here + [segments[0]], segments[1..]);
      assert here + segments == here + [segments[0]] + segments[1..];
    }
  }

  /** Walking only grows where it grows: the length tells how many segments were names. */
  lemma {:induction false} WalkLength(here: seq<string>, segments: seq<string>)
    requires Walk(here, segments).Some?
    ensures |Walk(here, segments).value| <= |here| + |segments|
    ensures |Walk(here, segments).value| == |here| + |segments| ==> forall i :: 0 <= i < |segments| ==>
        IsPlain(segments[i])
    decreases segments
  {
    if segments != [] {
      var next := if segments[0] == "" || segments[0] == "." then here
                  else if segments[0] == ".." then here[..|here| - 1]
                  else here + [segments[0]];
      WalkLength(next, segments[1..]);
      if |Walk(here, segments).value| == |here| + |segments| {
        forall i | 0 <= i < |segments|
          ensures IsPlain(segments[i])
        {
          if i > 0 {
            assert segments[i] == segments[1..][i - 1];
          }
        }
      }
    }
  }

  /** A path is safe exactly when it names no drive and every one of its segments goes one directory
      deeper: from any directory it leads strictly inside, through the names it spells. */
  lemma SafeExactly(path: string)
    ensures IsSafeRelativePath(path) <==>
      && !(2 <= |path| && path[1] == ':' && ('a' <= path[0] <= 'z' || 'A' <= path[0] <= 'Z'))
      && forall here :: Walk(here, Segments(path, IsEitherSlash)) == Some(here + Segments(path, IsEitherSlash))
  {
    var segments := Segments(path, IsEitherSlash);
    DriveIsFirst(path);
    if IsSafeRelativePath(path) {
      forall here
        ensures Walk(here, segments) == Some(here + segments)
      {
        PlainWalk(here, segments);
      }
    }
    if forall here :: Walk(here, segments) == Some(here + segments) {
      assert Walk([], segments) == Some([] + segments);
      assert [] + segments == segments;
      WalkLength([], segments);
      FirstSegment(path, IsEitherSlash);
      assert IsPlain(segments[0]);
    }
  }

  /** A drive at the front of the path is at the front of its first segment. */
  lemma DriveIsFirst(path: string)
    ensures HasDrive(Segments(path, IsEitherSlash)[0]) <==> HasDrive(path)
  {
    if path != "" && path[1..] != "" {
      assert Segments(path[1..], IsEitherSlash) != [];
      assert path[1..][1..] == path[2..];
    }
  }

  /** What was split goes together again: the text is the segments with one separator between each two,
      and no segment holds one. That determines the segments. */
  ghost predicate Weaves(path: string, segments: seq<string>, seps: string, sep: char -> bool) {
    && |segments| == |seps| + 1
    && (forall i :: 0 <= i < |seps| ==> sep(seps[i]))
    && (forall i, j :: 0 <= i < |segments| && 0 <= j < |segments[i]| ==> !sep(segments[i][j]))
    && path == Woven(segments, seps)
  }

  ghost function Woven(segments: seq<string>, seps: string): string
    requires |segments| == |seps| + 1
  {
    if seps == "" then segments[0] else segments[0] + [seps[0]] + Woven(segments[1..], seps[1..])
  }

  lemma {:induction false} SegmentsWeave(path: string, sep: char -> bool) returns (seps: string)
    ensures Weaves(path, Segments(path, sep), seps, sep)
  {
    seps := "";
    if path != "" {
      var rest := SegmentsWeave(path[1..], sep);
      var tail := Segments(path[1..], sep);
      var all := Segments(path, sep);
      if sep(path[0]) {
        seps := [path[0]] + rest;
        assert all[1..] == tail && seps[1..] == rest;
      } else {
        seps := rest;
        assert all[1..] == tail[1..];
        assert path == [path[0]] + path[1..];
        if rest != "" {
          assert [path[0]] + (tail[0] + [rest[0]] + Woven(tail[1..], rest[1..]))
              == ([path[0]] + tail[0]) + [rest[0]] + Woven(tail[1..], rest[1..]);
        }
      }
    }
  }

  lemma {:induction false} WeaveIsUnique(segments: seq<string>, seps: string, others: seq<string>, more: string,
                                         sep: char -> bool)
    requires |segments| == |seps| + 1 && |others| == |more| + 1
    requires Weaves(Woven(segments, seps), segments, seps, sep)
    requires Weaves(Woven(segments, seps), others, more, sep)
    ensures segments == others && seps == more
  {
    var a, b := segments[0], others[0];
    var path := Woven(segments, seps);
    assert seps != "" ==> path[|a|] == seps[0];
    assert more != "" ==> path[|b|] == more[0];
    assert path[..|a|] == a && path[..|b|] == b;
    if seps != "" {
      SepEnds(path, |a|, b, sep);
    }
    if more != "" {
      SepEnds(path, |b|, a, sep);
    }
    assert |a| == |b|;
    if seps != "" {
      assert path[|a| + 1..] == Woven(segments[1..], seps[1..]) == Woven(others[1..], more[1..]);
      WeaveIsUnique(segments[1..], seps[1..], others[1..], more[1..], sep);
      assert segments == [a] + segments[1..] && others == [b] + others[1..];
      assert seps == [seps[0]] + seps[1..] && more == [more[0]] + more[1..];
    }
  }

  /** A piece without separators ends before the first. */
  lemma SepEnds(path: string, i: nat, piece: string, sep: char -> bool)
    requires i < |path| && sep(path[i]) && piece <= path && forall j :: 0 <= j < |piece| ==> !sep(piece[j])
    ensures |piece| <= i
  {
  }

  lemma FirstSegment(path: string, sep: char -> bool)
    ensures path == "" || sep(path[0]) <==> Segments(path, sep)[0] == ""
  {
  }

  /** So an accepted mapping's file is strictly below the home, and no step on the way leaves. */
  lemma MappedFilesStayInside(key: string, path: string, fileKey: string)
    requires RuleIsValid(key, FileTarget(path, fileKey))
    ensures
      var segments := Segments(path, IsEitherSlash);
      && ".." !in segments && Walk([], segments) == Some(segments) && segments != []
      && forall i :: 0 <= i <= |segments| ==> Walk([], segments[..i]) == Some(segments[..i])
  {
    var segments := Segments(path, IsEitherSlash);
    assert forall i :: 0 <= i < |segments| ==> IsPlain(segments[i]);
    forall i | 0 <= i <= |segments|
      ensures Walk([], segments[..i]) == Some(segments[..i])
    {
      PlainWalk([], segments[..i]);
      assert [] + segments[..i] == segments[..i];
    }
    assert segments[..|segments|] == segments;
  }

  lemma {:induction false} NoParentStays(here: seq<string>, segments: seq<string>)
    requires ".." !in segments
    ensures Walk(here, segments).Some? && here <= Walk(here, segments).value
    decreases segments
  {
    if segments != [] {
      assert forall s :: s in segments[1..] ==> s in segments;
      if segments[0] == "" || segments[0] == "." {
        NoParentStays(here, segments[1..]);
      } else {
        assert segments[0] in segments;
        NoParentStays(here + [segments[0]], segments[1..]);
      }
    }
  }

  /** An accepted idle file stays inside too, under Unix rules, though it may be the home itself. */
  lemma IdleFilesStayInside(path: string, timeoutMs: nat, i: nat)
    requires Spec(Some(path), timeoutMs).Resolved? && i <= |Segments(path, IsSlash)|
    ensures !IsRooted(path, IsSlash)
    ensures Walk([], Segments(path, IsSlash)[..i]).Some?
  {
    NoParentStays([], Segments(path, IsSlash)[..i]);
  }

  /** An idle file is accepted exactly when it is not blank, holds no control character, does not start
      at the root and has no parent among its segments, and the timeout is at most ten minutes. */
  lemma IdleExactly(path: string, timeoutMs: nat)
    ensures Spec(Some(path), timeoutMs) == Resolved(DrainSpec(Some(path), timeoutMs)) <==>
      && !Blank(path) && (forall c :: c in path ==> !(c as int < 0x20 || 0x7f <= c as int < 0xa0))
      && path[0] != '/' && ".." !in Segments(path, IsSlash) && 1 <= timeoutMs <= 600_000
    ensures !(1 <= timeoutMs <= 600_000) ==> Spec(Some(path), timeoutMs) == BadTimeout
  {
    ControlFree(path);
    hide Segments, HasControl;
  }

  // ---------- What the mapping accepts, the drain accepts ----------

  /** A segment between slashes that is `..` is one between either separator, too. */
  lemma {:induction false} FinerSegments(path: string, name: string)
    requires name in Segments(path, IsSlash) && '\\' !in name
    ensures name in Segments(path, IsEitherSlash)
  {
    if path != "" {
      var rest, fine := Segments(path[1..], IsSlash), Segments(path[1..], IsEitherSlash);
      if name in rest[1..] {
        FinerTail(path[1..], name);
      }
      if name == Segments(path, IsSlash)[0] {
        FirstFiner(path, name);
      } else if path[0] == '/' {
        FinerSegments(path[1..], name);
      }
    }
  }

  /** The first segment, when it has no backslash, is the first either way. */
  lemma {:induction false} FirstFiner(path: string, name: string)
    requires name == Segments(path, IsSlash)[0] && '\\' !in name
    ensures name == Segments(path, IsEitherSlash)[0]
  {
    if path != "" && path[0] != '/' {
      assert path[0] == name[0] && name[1..] == Segments(path[1..], IsSlash)[0];
      assert forall c :: c in name[1..] ==> c in name;
      assert path[0] in name;
      FirstFiner(path[1..], name[1..]);
    }
  }

  lemma {:induction false} FinerTail(path: string, name: string)
    requires name in Segments(path, IsSlash)[1..] && '\\' !in name
    ensures name in Segments(path, IsEitherSlash)[1..]
  {
    if path != "" {
      var rest := Segments(path[1..], IsSlash);
      if path[0] == '/' {
        assert Segments(path, IsSlash)[1..] == rest;
        FinerSegments(path[1..], name);
        assert Segments(path, IsEitherSlash)[1..] == Segments(path[1..], IsEitherSlash);
      } else {
        assert Segments(path, IsSlash)[1..] == rest[1..];
        FinerTail(path[1..], name);
        if path[0] == '\\' {
          assert Segments(path, IsEitherSlash)[1..] == Segments(path[1..], IsEitherSlash);
        } else {
          assert Segments(path, IsEitherSlash)[1..] == Segments(path[1..], IsEitherSlash)[1..];
        }
      }
    }
  }

  /** Every control-free path the mapping accepts, the drain accepts as an idle file. */
  lemma MappedFilesAreIdleFiles(key: string, path: string, fileKey: string, timeoutMs: nat)
    requires RuleIsValid(key, FileTarget(path, fileKey)) && !HasControl(path) && 1 <= timeoutMs <= 600_000
    ensures Spec(Some(path), timeoutMs) == Resolved(DrainSpec(Some(path), timeoutMs))
  {
    hide Segments, Blank, HasControl;
    var segments := Segments(path, IsEitherSlash);
    if ".." in Segments(path, IsSlash) {
      FinerSegments(path, "..");
    }
  }
}
