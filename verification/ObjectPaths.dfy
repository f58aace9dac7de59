/** Object paths as libgdbus walks them: invalidate_parent_data cuts a path at its last slash until nothing
    is left.  The walk is shown to visit exactly the proper ancestors. */
module ObjectPaths {
  import opened Bytes

  /** "/", or slash-separated non-empty elements; what libdbus accepts as a path. */
  predicate ValidPath(p: string) {
    p == "/" ||
    (&& |p| >= 2
     && p[0] == '/'
     && p[|p| - 1] != '/'
     && forall i :: 0 <= i < |p| - 1 && p[i] == '/' ==> p[i + 1] != '/')
  }

  /** `a` is above `p` in the tree of paths. */
  predicate ProperAncestor(a: string, p: string) {
    if a == "/" then |p| > 1 && p[0] == '/'
    else 0 < |a| < |p| && p[..|a|] == a && p[|a|] == '/'
  }

  /** strrchr(p, '/'). */
  function LastSlash(p: string): (k: Option<nat>)
    ensures k.Some? ==> k.value < |p| && p[k.value] == '/'
    ensures forall i :: 0 <= i < |p| && p[i] == '/' ==> k.Some? && i <= k.value
  {
    if p == [] then None
    else if p[|p| - 1] == '/' then Some(|p| - 1)
    else LastSlash(p[..|p| - 1])
  }

  /** The path one recursion of invalidate_parent_data hands to the next. */
  function ParentPath(p: string): (q: Option<string>)
    ensures q.Some? ==> |q.value| < |p|
  {
    match LastSlash(p)
    case None => None
    case Some(k) =>
      if k == 0 && |p| > 1 then Some(p[..1])
      else if k == 0 then None
      else Some(p[..k])
  }

  function Ancestors(p: string): set<string>
    decreases |p|
  {
    match ParentPath(p)
    case None => {}
    case Some(q) => {q} + Ancestors(q)
  }

  lemma ParentIsValid(p: string)
    requires ValidPath(p)
    ensures ParentPath(p).None? <==> p == "/"
    ensures ParentPath(p).Some? ==> ValidPath(ParentPath(p).value) && ProperAncestor(ParentPath(p).value, p)
  {
    if p != "/" {
      var k := LastSlash(p).value;
      if k == 0 {
        assert p[..1] == "/";
      } else {
        var q := p[..k];
        assert q[0] == '/' && q[|q| - 1] == p[k - 1] && p[k - 1] != '/';
      }
    }
  }

  lemma AncestorStep(a: string, p: string)
    requires ValidPath(a) && ValidPath(p) && p != "/"
    ensures ParentPath(p).Some?
    ensures ProperAncestor(a, p) <==> a == ParentPath(p).value || ProperAncestor(a, ParentPath(p).value)
  {
    ParentIsValid(p);
    var q := ParentPath(p).value;
    var k := LastSlash(p).value;
    if k == 0 {
      assert q == "/";
    } else {
      assert q == p[..k];
      if a != "/" && |a| < k {
        assert q[..|a|] == p[..|a|];
      }
    }
  }

  /** The recursion visits the proper ancestors of a path, all of them and nothing else. */
  lemma {:induction false} AncestorsExact(a: string, p: string)
    requires ValidPath(a) && ValidPath(p)
    ensures a in Ancestors(p) <==> ProperAncestor(a, p)
    decreases |p|
  {
    ParentIsValid(p);
    if p == "/" {
    } else {
      AncestorStep(a, p);
      AncestorsExact(a, ParentPath(p).value);
    }
  }

  /** The element below `a` on the way to `p`: the name libdbus lists as a child of `a`. */
  function ChildName(a: string, p: string): string
    requires ProperAncestor(a, p)
  {
    UpToSlash(if a == "/" then p[1..] else p[|a| + 1..])
  }

  function UpToSlash(s: string): string {
    if s == [] || s[0] == '/' then [] else [s[0]] + UpToSlash(s[1..])
  }

  lemma {:induction false} UpToSlashIs(s: string)
    ensures UpToSlash(s) <= s && '/' !in UpToSlash(s)
    ensures |UpToSlash(s)| < |s| ==> s[|UpToSlash(s)|] == '/'
  {
    if s == [] || s[0] == '/' {
    } else {
      UpToSlashIs(s[1..]);
    }
  }

  function Below(a: string): string {
    if a == "/" then "/" else a + "/"
  }

  lemma BelowIsPrefix(a: string, p: string)
    requires ValidPath(p) && ProperAncestor(a, p)
    ensures |Below(a)| < |p| && p == Below(a) + p[|Below(a)|..] && p[|Below(a)|] != '/'
    ensures ChildName(a, p) == UpToSlash(p[|Below(a)|..])
  {
    if a == "/" {
      assert p[..1] == "/";
    } else {
      assert p[..|a| + 1] == a + "/";
    }
  }

  /** The child of this name is `p` itself or above it. */
  lemma ChildOnTheWay(a: string, p: string)
    requires ValidPath(p) && ProperAncestor(a, p)
    ensures var name := ChildName(a, p);
            && name != "" && '/' !in name
            && (Below(a) + name == p || ProperAncestor(Below(a) + name, p))
  {
    BelowIsPrefix(a, p);
    var base, rest, name := Below(a), p[|Below(a)|..], ChildName(a, p);
    UpToSlashIs(rest);
    assert rest == name + rest[|name|..];
    assert p[..|base + name|] == base + name;
    if |base + name| == |p| {
      assert p[..|p|] == p;
    } else {
      assert p[|base + name|] == rest[|name|];
    }
  }
}
