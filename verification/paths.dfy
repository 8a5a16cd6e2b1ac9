/**
 * File-name arithmetic on Unix paths, as java.io.File performs it: a path is
 * a string whose components are separated by '/'.
 */
module Paths {

  /** A name with no directory part: it names an entry directly inside a directory. */
  predicate IsPlain(s: string) {
    '/' !in s
  }

  /** The path with its trailing separators removed, as File's normalisation does. */
  function StripTrailingSlashes(s: string): (r: string)
    ensures r <= s
    ensures r == [] || r[|r| - 1] != '/'
    ensures forall i :: |r| <= i < |s| ==> s[i] == '/'
  {
    if s != [] && s[|s| - 1] == '/' then StripTrailingSlashes(s[..|s| - 1]) else s
  }

  /** The part of `s` after its last separator. */
  function LastSegment(s: string): (r: string)
    ensures IsPlain(r)
    ensures IsPlain(s) ==> r == s
  {
    if s == [] || s[|s| - 1] == '/' then [] else LastSegment(s[..|s| - 1]) + [s[|s| - 1]]
  }

  /** The last segment is the longest suffix of `s` that contains no separator. */
  lemma {:induction false} LastSegmentIsLongestPlainSuffix(s: string)
    ensures var r := LastSegment(s);
      |r| <= |s| && r == s[|s| - |r|..] && (|r| == |s| || s[|s| - |r| - 1] == '/')
  {
    if s != [] && s[|s| - 1] != '/' {
      var init := s[..|s| - 1];
      LastSegmentIsLongestPlainSuffix(init);
      var r0 := LastSegment(init);
      assert s[|s| - |r0| - 1..] == init[|init| - |r0|..] + [s[|s| - 1]];
    }
  }

  /** `new File(s).getName()`: the last component of the normalised path. */
  function BaseName(s: string): (r: string)
    ensures IsPlain(r)
    ensures IsPlain(s) ==> r == s
  {
    LastSegment(StripTrailingSlashes(s))
  }

  /** The last segment of `dir/name` is `name` whenever `name` is plain. */
  lemma {:induction false} LastSegmentAfterSeparator(dir: string, name: string)
    requires IsPlain(name)
    ensures LastSegment(dir + "/" + name) == name
  {
    if name == [] {
      assert dir + "/" + name == dir + "/";
    } else {
      var p := dir + "/" + name;
      var init := name[..|name| - 1];
      assert p[..|p| - 1] == dir + "/" + init;
      assert '/' !in init by {
        forall i | 0 <= i < |init| ensures init[i] != '/' { assert init[i] == name[i]; }
      }
      LastSegmentAfterSeparator(dir, init);
      assert init + [name[|name| - 1]] == name;
    }
  }

  /** A file listed with a directory part is written under its last component only. */
  lemma BaseNameOfNestedPath(dir: string, name: string)
    requires IsPlain(name) && name != []
    ensures BaseName(dir + "/" + name) == name
  {
    var p := dir + "/" + name;
    assert p[|p| - 1] == name[|name| - 1];
    assert StripTrailingSlashes(p) == p;
    LastSegmentAfterSeparator(dir, name);
  }
}
