/** Path strings: the components lookup walks, and the split into parent and name. */
module Paths {
  import opened Prelude

  /** Length of the first component. */
  function Run(s: string): (k: nat)
    ensures k <= |s| && '/' !in s[..k] && (k < |s| ==> s[k] == '/')
  {
    if s == "" || s[0] == '/' then 0 else 1 + Run(s[1..])
  }

  /** The non-empty pieces between slashes. */
  function Parts(s: string): seq<string>
    decreases |s|
  {
    if s == "" then []
    else if s[0] == '/' then Parts(s[1..])
    else [s[..Run(s)]] + Parts(s[Run(s)..])
  }

  function TrimEnd(s: string): string { if s != "" && s[|s| - 1] == '/' then TrimEnd(s[..|s| - 1]) else s }

  /** Position of the last slash. */
  function LastSlash(s: string): (r: Option<nat>)
    ensures r.None? ==> '/' !in s
    ensures r.Some? ==> r.value < |s| && s[r.value] == '/' && '/' !in s[r.value + 1..]
  {
    if s == "" then None
    else if s[|s| - 1] == '/' then Some(|s| - 1)
    else LastSlash(s[..|s| - 1])
  }

  datatype Split = Split(parent: string, name: string)

  function SplitParent(s: string): Option<Split> {
    var path := TrimEnd(s);
    match LastSlash(path)
    case None => None
    case Some(slash) =>
      var parent := if slash == 0 then "/" else path[..slash];
      if path[slash + 1..] == "" then None else Some(Split(parent, path[slash + 1..]))
  }

  lemma {:induction false} RunPrefix(a: string, b: string)
    requires b != "" ==> b[0] == '/'
    ensures Run(a + b) == Run(a)
  {
    if a == "" { assert a + b == b; } else if a[0] != '/' {
      assert (a + b)[1..] == a[1..] + b;
      RunPrefix(a[1..], b);
    }
  }

  lemma {:induction false} PartsConcat(a: string, b: string)
    ensures Parts(a + "/" + b) == Parts(a) + Parts(b)
    decreases |a|
  {
    var s := a + "/" + b;
    if a == "" {
      assert s[1..] == b;
    } else if a[0] == '/' {
      assert s[1..] == a[1..] + "/" + b;
      PartsConcat(a[1..], b);
    } else {
      assert s == a + ("/" + b);
      RunPrefix(a, "/" + b);
      var k := Run(a);
      assert s[..k] == a[..k] && s[k..] == a[k..] + "/" + b;
      PartsConcat(a[k..], b);
    }
  }

  lemma {:induction false} PartsOfName(name: string)
    requires name != "" && '/' !in name
    ensures Parts(name) == [name]
  {
    assert forall k :: 0 <= k < |name| ==> name[k] in name;
    assert Run(name) == |name|;
    assert name[..|name|] == name && name[|name|..] == "";
  }

  lemma {:induction false} PartsTrim(s: string)
    ensures Parts(TrimEnd(s)) == Parts(s)
    ensures TrimEnd(s) != "" ==> TrimEnd(s)[|TrimEnd(s)| - 1] != '/'
  {
    if s != "" && s[|s| - 1] == '/' {
      PartsTrim(s[..|s| - 1]);
      PartsConcat(s[..|s| - 1], "");
      assert s == s[..|s| - 1] + "/" + "";
    }
  }

  /** The split names the last component, and the parent string leads to all the others. */
  lemma {:induction false} SplitParentParts(s: string)
    requires SplitParent(s).Some?
    ensures var r := SplitParent(s).value;
            && r.name != "" && '/' !in r.name && Parts(s) == Parts(r.parent) + [r.name]
  {
    var path := TrimEnd(s);
    var slash, r := LastSlash(path).value, SplitParent(s).value;
    PartsTrim(s);
    assert path == path[..slash] + "/" + r.name;
    PartsConcat(path[..slash], r.name);
    PartsOfName(r.name);
    assert slash == 0 ==> Parts("/") == Parts(path[..0]) by { assert "/"[1..] == "" && path[..0] == ""; }
  }

  /** An absolute path is refused exactly when it is the root; any path without an inner slash is refused. */
  lemma {:induction false} SplitParentFails(s: string)
    ensures SplitParent(s) == None <==> '/' !in TrimEnd(s)
    ensures s != "" && s[0] == '/' ==> (SplitParent(s) == None <==> Parts(s) == [])
  {
    PartsTrim(s);
    var path := TrimEnd(s);
    if LastSlash(path).Some? {
      var slash := LastSlash(path).value;
      assert slash < |path| - 1;
      assert path[slash] in path;
      SplitParentParts(s);
    } else if s != "" && s[0] == '/' {
      TrimKeepsStart(s);
    }
  }

  lemma {:induction false} TrimKeepsStart(s: string)
    ensures TrimEnd(s) <= s
  {
    if s != "" && s[|s| - 1] == '/' { TrimKeepsStart(s[..|s| - 1]); }
  }

  /** The string that ensure_parent_dirs builds component by component. */
  function Join(parts: seq<string>): string {
    if parts == [] then "" else Join(parts[..|parts| - 1]) + "/" + parts[|parts| - 1]
  }

  /** Building a path from components and walking it again gives the components back. */
  lemma {:induction false} PartsOfJoin(parts: seq<string>)
    requires forall p :: p in parts ==> p != "" && '/' !in p
    ensures Parts(Join(parts)) == parts
  {
    if parts == [] {
    } else {
      var init, last := parts[..|parts| - 1], parts[|parts| - 1];
      assert last in parts && forall p :: p in init ==> p in parts;
      PartsOfJoin(init);
      PartsConcat(Join(init), last);
      PartsOfName(last);
    }
  }
}
