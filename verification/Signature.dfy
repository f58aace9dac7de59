/** Matching a message signature against a table of argument signatures, libgdbus/object.c. */
module Signature {
  import opened Bytes

  function Concat(args: seq<string>): string {
    if args == [] then "" else args[0] + Concat(args[1..])
  }

  lemma {:induction false} ConcatSplit(args: seq<string>, a: nat)
    requires a <= |args|
    ensures Concat(args) == Concat(args[..a]) + Concat(args[a..])
  {
    if a == 0 {
      assert args[a..] == args;
    } else {
      assert args[1..][..a - 1] == args[..a][1..] && args[1..][a - 1..] == args[a..];
      ConcatSplit(args[1..], a - 1);
    }
  }

  lemma ConcatSnoc(args: seq<string>, arg: string)
    ensures Concat(args + [arg]) == Concat(args) + arg
  {
    ConcatSplit(args + [arg], |args|);
    assert (args + [arg])[..|args|] == args && (args + [arg])[|args|..] == [arg];
    assert Concat([arg]) == arg + Concat([]);
  }

  lemma ConcatAround(args: seq<string>, a: nat)
    requires a < |args|
    ensures Concat(args) == Concat(args[..a]) + args[a] + Concat(args[a + 1..])
    ensures Concat(args[..a + 1]) == Concat(args[..a]) + args[a]
  {
    ConcatSplit(args, a + 1);
    ConcatSnoc(args[..a], args[a]);
    assert args[..a + 1] == args[..a] + [args[a]];
  }

  lemma TailOfNonempty(args: seq<string>)
    requires args != [] && args[|args| - 1] != ""
    ensures Concat(args) != ""
  {
    ConcatAround(args, |args| - 1);
  }

  /** The argument signatures of a possibly null table. */
  function Listed(table: Option<seq<string>>): seq<string> {
    if table.None? then [] else table.value
  }

  predicate EndsEmpty(args: seq<string>) {
    args != [] && args[|args| - 1] == ""
  }

  /** What the loop decides: equality with the concatenation, except that a table ending in an empty
      signature never matches. */
  predicate Matches(args: seq<string>, sig: string) {
    sig == Concat(args) && !EndsEmpty(args)
  }

  /** g_dbus_args_have_signature. */
  method ArgsHaveSignature(table: Option<seq<string>>, sig: string) returns (ok: bool)
    ensures ok <==> Matches(Listed(table), sig)
    ensures (forall i :: 0 <= i < |Listed(table)| ==> Listed(table)[i] != "") ==> (ok <==> sig == Concat(Listed(table)))
  {
    ghost var args := Listed(table);
    var a, s := 0, 0;
    var p, k := "", 0;
    while table.Some? && a < |table.value| && s < |sig|
      invariant 0 <= a <= |args| && 0 <= s <= |sig| && 0 <= k <= |p|
      invariant k == |p| ==> sig[..s] == Concat(args[..a])
      invariant k < |p| ==> s == |sig| && |sig| < |Concat(args)|
      invariant a > 0 ==> p == args[a - 1]
      invariant a == 0 ==> p == ""
      invariant a > 0 && p == "" ==> s < |sig|
    {
      p, k := table.value[a], 0;
      ConcatAround(args, a);
      ghost var start := s;
      while s < |sig| && k < |p|
        invariant 0 <= k <= |p| && start <= s <= |sig| && s == start + k
        invariant sig[..s] == Concat(args[..a]) + p[..k]
      {
        if p[k] != sig[s] {
          assert Concat(args)[s] == p[k];
          return false;
        }
        s, k := s + 1, k + 1;
      }
      a := a + 1;
    }
    ConcatSplit(args, a);
    assert args[..|args|] == args;
    if s < |sig| || k < |p| || (table.Some? && a < |table.value|) {
      if a < |args| && !EndsEmpty(args) && k == |p| {
        TailOfNonempty(args[a..]);
      }
      return false;
    }
    return true;
  }

  /** A table whose last signature is empty is refused even where the concatenation agrees. */
  lemma TrailingEmptyRefused()
    ensures Concat(["i", ""]) == "i" && !Matches(["i", ""], "i")
  {
    assert ["i", ""] == ["i"] + [""];
    ConcatSnoc(["i"], "");
    assert Concat(["i"]) == "i" + Concat([]);
  }
}
