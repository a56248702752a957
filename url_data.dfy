/** The absoluteness test on the data folder (`isUrlAbsolute` in
    src/utils/data.ts), which decides between fetching JSON over the network
    and importing it from the local data folder. */
module UrlData {

  /** `sub` occurs in `s` at position `i`. */
  predicate OccursAt(s: string, sub: string, i: int)
  {
    0 <= i && i + |sub| <= |s| && s[i..i + |sub|] == sub
  }

  predicate Contains(s: string, sub: string)
  {
    exists i :: 0 <= i <= |s| && OccursAt(s, sub, i)
  }

  predicate StartsWith(s: string, prefix: string)
  {
    OccursAt(s, prefix, 0)
  }

  /** First occurrence of `sub` at or after `from`, or -1. */
  function IndexOfFrom(s: string, sub: string, from: nat): (r: int)
    requires from <= |s|
    ensures r == -1 || (from <= r && OccursAt(s, sub, r))
    ensures r == -1 ==> forall i :: from <= i ==> !OccursAt(s, sub, i)
    ensures r != -1 ==> forall i :: from <= i < r ==> !OccursAt(s, sub, i)
    decreases |s| - from
  {
    if OccursAt(s, sub, from) then from
    else if from == |s| then -1
    else IndexOfFrom(s, sub, from + 1)
  }

  /** `s.indexOf(sub)`: the first position of `sub` in `s`, or -1 when absent. */
  function IndexOf(s: string, sub: string): (r: int)
    ensures r == -1 <==> !Contains(s, sub)
    ensures r != -1 ==> OccursAt(s, sub, r) && forall i :: 0 <= i < r ==> !OccursAt(s, sub, i)
  {
    IndexOfFrom(s, sub, 0)
  }

  /** `isUrlAbsolute`: a folder is a URL exactly when it is protocol-relative
      (`//host`) or contains `://` after at least one character (`https://host`). */
  function IsUrlAbsolute(url: string): (r: bool)
    ensures r <==> StartsWith(url, "//") || (Contains(url, "://") && !StartsWith(url, "://"))
  {
    var i := IndexOf(url, "://");
    assert Contains(url, "://") && !StartsWith(url, "://") ==> i != 0;
    i > 0 || IndexOf(url, "//") == 0
  }

  /** The default folder name is local. */
  lemma DefaultFolderIsLocal()
    ensures !IsUrlAbsolute("json")
  {
    var s := "json";
    forall i | 0 <= i <= |s| ensures !OccursAt(s, "://", i) {
      if i + 3 <= |s| {
        assert s[i..i + 3][0] == s[i] != ':';
      }
    }
    assert !StartsWith(s, "//") by {
      assert s[0..2][0] == s[0] != '/';
    }
  }

  lemma EmptyIsLocal()
    ensures !IsUrlAbsolute("")
  {
  }

  /** A leading `://` is not a protocol: its `//` sits at index 1, not 0. */
  lemma BareSeparatorIsLocal()
    ensures !IsUrlAbsolute("://x")
  {
    var s := "://x";
    assert OccursAt(s, "://", 0);
    assert IndexOf(s, "://") == 0;
    assert !OccursAt(s, "//", 0) by {
      assert s[0] == ':';
    }
    assert IndexOf(s, "//") != 0;
  }

  lemma HttpsIsAbsolute()
    ensures IsUrlAbsolute("https://x")
  {
    var s := "https://x";
    assert OccursAt(s, "://", 5) by {
      assert s[5..8] == "://";
    }
    assert s[0] == 'h';
  }

  lemma ProtocolRelativeIsAbsolute()
    ensures IsUrlAbsolute("//cdn/json")
  {
    var s := "//cdn/json";
    assert s[0..2] == "//";
  }
}
