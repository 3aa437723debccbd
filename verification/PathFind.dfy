/**
 dir/find.rs: resolving a path without ever going up. A name that a later ".."
 takes back is skipped together with everything up to that "..".
 */
module PathFind {
  import opened MetadataLog

  type Name = string

  datatype Node = Dir(dir: nat) | File(file: nat)

  // what a directory holds; only asked of directories
  type Lookup = (nat, Name) -> Option<Node>

  datatype Outcome = Found(node: Node) | Invalid | NotDir | NoEntry

  // ----- the reference: split at slashes, cancel "..", walk -----

  // lfs_strspn and lfs_strcspn for '/'
  function Slashes(s: string): (n: nat)
    ensures n <= |s| && (n < |s| ==> s[n] != '/')
  {
    if s != [] && s[0] == '/' then 1 + Slashes(s[1..]) else 0
  }

  function NameLength(s: string): (n: nat)
    ensures n <= |s| && (n < |s| ==> s[n] == '/')
    ensures s != [] && s[0] != '/' ==> n > 0
  {
    if s != [] && s[0] != '/' then 1 + NameLength(s[1..]) else 0
  }

  function Names(s: string): seq<Name>
    decreases |s|
  {
    if s == [] then []
    else if s[0] == '/' then Names(s[1..])
    else [s[..NameLength(s)]] + Names(s[NameLength(s)..])
  }

  // The names that are left of a path; None if it leads above the root.
  function Normal(stack: seq<Name>, names: seq<Name>): Option<seq<Name>>
    decreases names
  {
    if names == [] then Some(stack)
    else if names[0] == "." then Normal(stack, names[1..])
    else if names[0] == ".." then (if stack == [] then None else Normal(stack[..|stack| - 1], names[1..]))
    else Normal(stack + [names[0]], names[1..])
  }

  // Does the path say that it means a directory?
  predicate Trailing(s: string) {
    s != [] && (s[|s| - 1] == '/' || (Names(s) != [] && Names(s)[|Names(s)| - 1] in {".", ".."}))
  }

  function Resolve(lookup: Lookup, node: Node, names: seq<Name>, trailing: bool): Outcome
    decreases names
  {
    if names == [] then (if node.File? && trailing then NotDir else Found(node))
    else match node
      case File(_) => NotDir
      case Dir(d) =>
        match lookup(d, names[0])
        case None => NoEntry
        case Some(n) => Resolve(lookup, n, names[1..], trailing)
  }

  function Meaning(lookup: Lookup, node: Node, s: string): Outcome {
    match Normal([], Names(s))
    case None => Invalid
    case Some(names) => Resolve(lookup, node, names, Trailing(s))
  }

  // ----- looking ahead for the ".." that takes a name back -----

  // what follows the ".." that brings the depth down to zero
  function Ahead(names: seq<Name>, depth: nat): Option<seq<Name>>
    requires depth > 0
    decreases names
  {
    if names == [] then None
    else if names[0] == "." then Ahead(names[1..], depth)
    else if names[0] == ".." then (if depth == 1 then Some(names[1..]) else Ahead(names[1..], depth - 1))
    else Ahead(names[1..], depth + 1)
  }

  lemma {:induction false} Cancelled(t: seq<Name>, names: seq<Name>)
    requires t != [] && Ahead(names, |t|).Some?
    ensures Normal(t, names) == Normal([], Ahead(names, |t|).value)
    decreases names
  {
    if names[0] == "." {
      Cancelled(t, names[1..]);
    } else if names[0] == ".." {
      if |t| > 1 { Cancelled(t[..|t| - 1], names[1..]); } else { assert t[..0] == []; }
    } else {
      Cancelled(t + [names[0]], names[1..]);
    }
  }

  lemma {:induction false} Kept(t: seq<Name>, names: seq<Name>)
    requires t != [] && Ahead(names, |t|).None?
    ensures Normal(t[1..], names).Some?
    ensures Normal(t, names) == Some([t[0]] + Normal(t[1..], names).value)
    decreases names
  {
    if names == [] {
      assert t == [t[0]] + t[1..];
    } else if names[0] == "." {
      Kept(t, names[1..]);
    } else if names[0] == ".." {
      var u := t[..|t| - 1];
      assert u[1..] == t[1..][..|t| - 2];
      Kept(u, names[1..]);
    } else {
      var u := t + [names[0]];
      assert u[1..] == t[1..] + [names[0]];
      Kept(u, names[1..]);
    }
  }

  // Where nothing leads above the root nothing is taken back from outside.
  lemma {:induction false} NothingAhead(t: seq<Name>, names: seq<Name>)
    requires Normal(t, names).Some?
    ensures Ahead(names, |t| + 1).None?
    decreases names
  {
    if names != [] {
      if names[0] == "." {
        NothingAhead(t, names[1..]);
      } else if names[0] == ".." {
        NothingAhead(t[..|t| - 1], names[1..]);
      } else {
        NothingAhead(t + [names[0]], names[1..]);
      }
    }
  }

  // ----- the text and its names -----

  lemma {:induction false} SkipSlashes(s: string)
    ensures Names(s) == Names(s[Slashes(s)..])
  {
    if s != [] && s[0] == '/' {
      SkipSlashes(s[1..]);
      assert s[1..][Slashes(s[1..])..] == s[Slashes(s)..];
    }
  }

  lemma FirstName(s: string)
    requires s != [] && s[0] != '/'
    ensures Names(s) == [s[..NameLength(s)]] + Names(s[NameLength(s)..])
  {}

  // r is the end of s, cut where a name ends or begins
  ghost predicate EndOf(s: string, r: string) {
    && |r| <= |s| && r == s[|s| - |r|..]
    && |Names(r)| <= |Names(s)| && Names(r) == Names(s)[|Names(s)| - |Names(r)|..]
  }

  lemma EndOfEnd(s: string, r: string, q: string)
    requires EndOf(s, r) && EndOf(r, q)
    ensures EndOf(s, q)
  {
    EndOfSeq(s, r, q);
    EndOfSeq(Names(s), Names(r), Names(q));
  }

  lemma EndOfSeq<T>(s: seq<T>, r: seq<T>, q: seq<T>)
    requires |r| <= |s| && r == s[|s| - |r|..] && |q| <= |r| && q == r[|r| - |q|..]
    ensures q == s[|s| - |q|..]
  {}

  lemma CutAt(s: string, k: nat, names: seq<Name>)
    requires k <= |s| && Names(s) == names + Names(s[k..])
    ensures EndOf(s, s[k..])
  {
    hide Names;
    var rest := Names(s[k..]);
    assert |Names(s)| - |rest| == |names|;
    assert (names + rest)[|names|..] == rest;
  }

  lemma CutSlashes(s: string)
    ensures EndOf(s, s[Slashes(s)..])
  {
    hide Names, Slashes, EndOf;
    SkipSlashes(s);
    assert [] + Names(s[Slashes(s)..]) == Names(s[Slashes(s)..]);
    CutAt(s, Slashes(s), []);
  }

  lemma CutName(s: string)
    ensures EndOf(s, s[NameLength(s)..])
  {
    hide Names, EndOf;
    if s != [] && s[0] != '/' {
      FirstName(s);
      CutAt(s, NameLength(s), [s[..NameLength(s)]]);
    } else {
      assert s[0..] == s && [] + Names(s) == Names(s);
      CutAt(s, 0, []);
    }
  }

  // Both end in the same way, as long as there is a name left.
  lemma SameEnd(s: string, r: string)
    requires EndOf(s, r) && Names(r) != []
    ensures Trailing(s) == Trailing(r)
  {
    assert r != [];
  }

  // A directory can be asked for whatever way the path to it ends.
  lemma SameMeaning(lookup: Lookup, node: Node, s: string, r: string)
    requires node.Dir? && EndOf(s, r) && Normal([], Names(s)) == Normal([], Names(r))
    ensures Meaning(lookup, node, s) == Meaning(lookup, node, r)
  {
    if Names(r) != [] { SameEnd(s, r); }
  }

  // One name looked up: the rest of the path means the same from there.
  lemma OneName(lookup: Lookup, node: Node, s: string)
    requires s != [] && s[0] != '/' && node.Dir?
    requires var n := s[..NameLength(s)]; n != "." && n != ".."
    requires Ahead(Names(s[NameLength(s)..]), 1).None?
    ensures var n, r := s[..NameLength(s)], s[NameLength(s)..];
            && Normal([], Names(r)).Some?
            && Meaning(lookup, node, s) ==
                 match lookup(node.dir, n)
                 case None => NoEntry
                 case Some(next) => Meaning(lookup, next, r)
  {
    hide Ahead, Trailing, NameLength, Names;
    var n, r := s[..NameLength(s)], s[NameLength(s)..];
    FirstName(s);
    PushName(n, Names(r), Names(s));
    SameTrailing(s);
    var names := Normal([], Names(r)).value;
    assert ([n] + names)[1..] == names;
  }

  lemma PushName(n: Name, names: seq<Name>, all: seq<Name>)
    requires n != "." && n != ".." && all == [n] + names && Ahead(names, 1).None?
    ensures Normal([], names).Some? && Normal([], all) == Some([n] + Normal([], names).value)
  {
    assert all[1..] == names && [] + [n] == [n] && [n][1..] == [];
    Kept([n], names);
  }

  // Cutting a name off does not change whether the path trails.
  lemma SameTrailing(s: string)
    requires s != [] && s[0] != '/' && s[..NameLength(s)] != "." && s[..NameLength(s)] != ".."
    ensures Trailing(s) == Trailing(s[NameLength(s)..])
  {
    var n, r := s[..NameLength(s)], s[NameLength(s)..];
    FirstName(s);
    CutName(s);
    if Names(r) != [] {
      SameEnd(s, r);
    } else {
      OnlySlashes(r);
      NameHasNoSlash(s);
      if r == [] { assert s == n; }
    }
  }

  lemma {:induction false} NameHasNoSlash(s: string)
    ensures forall i :: 0 <= i < NameLength(s) ==> s[i] != '/'
  {
    if s != [] && s[0] != '/' { NameHasNoSlash(s[1..]); }
  }

  lemma {:induction false} OnlySlashes(s: string)
    requires Names(s) == []
    ensures s != [] ==> s[|s| - 1] == '/'
  {
    if |s| > 1 { OnlySlashes(s[1..]); }
  }

  // A file with anything left of the path is not a directory.
  lemma FileNotDir(lookup: Lookup, node: Node, s: string)
    requires node.File? && s != [] && s[0] == '/' && Normal([], Names(s)).Some?
    ensures Meaning(lookup, node, s) == NotDir
  {
    if Names(s) == [] {
      OnlySlashes(s);
    } else if Names(s)[|Names(s)| - 1] !in {".", ".."} {
      LastName([], Names(s));
    }
  }

  // A last name that is not a dot or two is left over.
  lemma {:induction false} LastName(t: seq<Name>, names: seq<Name>)
    requires names != [] && Normal(t, names).Some? && names[|names| - 1] !in {".", ".."}
    ensures Normal(t, names).value != []
    decreases names
  {
    if |names| > 1 {
      var last := names[1..][|names| - 2];
      if names[0] == "." { LastName(t, names[1..]); }
      else if names[0] == ".." { LastName(t[..|t| - 1], names[1..]); }
      else { LastName(t + [names[0]], names[1..]); }
    }
  }

  // ----- lfs_dir_find -----

  // One name seen by the lookahead.
  lemma AheadName(s: string, depth: nat)
    requires s != [] && s[0] != '/' && depth > 0
    ensures var n, names := s[..NameLength(s)], Names(s[NameLength(s)..]);
            Ahead(Names(s), depth) ==
              if n == "." then Ahead(names, depth)
              else if n == ".." then (if depth == 1 then Some(names) else Ahead(names, depth - 1))
              else Ahead(names, depth + 1)
  {
    FirstName(s);
    assert Names(s)[1..] == Names(s[NameLength(s)..]);
  }

  lemma Dots(s: string)
    ensures NameLength(s) == 1 && s[0] == '.' <==> s[..NameLength(s)] == "."
    ensures NameLength(s) == 2 && s[0] == '.' && s[1] == '.' <==> s[..NameLength(s)] == ".."
  {}

  // Looks for the ".." that takes back the name in front of `suffix`.
  method LookAhead(suffix0: string) returns (rest: Option<string>)
    ensures rest.Some? <==> Ahead(Names(suffix0), 1).Some?
    ensures rest.Some? ==> Names(rest.value) == Ahead(Names(suffix0), 1).value && EndOf(suffix0, rest.value)
  {
    hide Names, EndOf, Ahead, NameLength, Slashes;
    var suffix := suffix0;
    var depth := 1;
    EndOfSelf(suffix0);
    while true
      invariant depth > 0 && EndOf(suffix0, suffix)
      invariant Ahead(Names(suffix0), 1) == Ahead(Names(suffix), depth)
      decreases |suffix|
    {
      CutSlashes(suffix);
      SkipSlashes(suffix);
      EndOfEnd(suffix0, suffix, suffix[Slashes(suffix)..]);
      suffix := suffix[Slashes(suffix)..];
      var length := NameLength(suffix);
      if length == 0 {
        NoNames(suffix, depth);
        return None;
      }
      Dots(suffix);
      AheadName(suffix, depth);
      CutName(suffix);
      EndOfEnd(suffix0, suffix, suffix[length..]);
      if length == 1 && suffix[0] == '.' {
      } else if length == 2 && suffix[0] == '.' && suffix[1] == '.' {
        depth := depth - 1;
        if depth == 0 {
          return Some(suffix[length..]);
        }
      } else {
        depth := depth + 1;
      }
      suffix := suffix[length..];
    }
  }

  lemma EndOfSelf(s: string)
    ensures EndOf(s, s)
  {}

  lemma NoNames(s: string, depth: nat)
    requires NameLength(s) == 0 && (s != [] ==> s[0] != '/') && depth > 0
    ensures s == [] && Names(s) == [] && Ahead(Names(s), depth) == None
  {}

  // The path means what splitting it, cancelling ".." and walking down means.
  method Find(lookup: Lookup, root: nat, path: string) returns (r: Outcome)
    ensures r == if path == "" || path[0] == '\0' then Invalid else Meaning(lookup, Dir(root), path)
  {
    hide Names, Normal, Meaning, Ahead, Trailing, NameLength, Slashes, EndOf;
    if path == "" || path[0] == '\0' {
      return Invalid;
    }
    var name := path;
    var node := Dir(root);
    while true
      invariant Meaning(lookup, Dir(root), path) == Meaning(lookup, node, name)
      invariant node.File? ==> Normal([], Names(name)).Some? && (name == [] || name[0] == '/')
      decreases |name|
    {
      if node.Dir? {
        SlashOrName(name);
        SameMeaning(lookup, node, name, name[Slashes(name)..]);
        name := name[Slashes(name)..];
      }
      var length := NameLength(name);
      Dots(name);
      FileNoName(node, name);
      if length == 1 && name[0] == '.' {
        DotMeans(lookup, node, name);
        name := name[1..];
        continue;
      }
      if length == 2 && name[0] == '.' && name[1] == '.' {
        UpMeans(lookup, node, name);
        return Invalid;
      }
      var rest := LookAhead(name[length..]);
      if rest.Some? {
        TakenBack(lookup, node, name, rest.value);
        name := rest.value;
        continue;
      }
      if name == [] {
        EmptyMeans(lookup, node);
        return Found(node);
      }
      if node.File? {
        FileNotDir(lookup, node, name);
        return NotDir;
      }
      OneName(lookup, node, name);
      match lookup(node.dir, name[..length]) {
        case None => return NoEntry;
        case Some(next) =>
          node := next;
          name := name[length..];
      }
    }
  }

  lemma FileNoName(node: Node, s: string)
    requires node.File? && s != [] ==> s[0] == '/'
    ensures node.File? || s == [] ==> NameLength(s) == 0
    ensures node.Dir? && s != [] && s[0] != '/' ==> NameLength(s) > 0
  {}

  lemma SlashOrName(s: string)
    ensures var r := s[Slashes(s)..]; r == [] || r[0] != '/'
    ensures EndOf(s, s[Slashes(s)..]) && Names(s) == Names(s[Slashes(s)..])
  {
    CutSlashes(s);
    SkipSlashes(s);
  }

  lemma DotMeans(lookup: Lookup, node: Node, s: string)
    requires node.Dir? && s != [] && s[0] == '.' && NameLength(s) == 1
    ensures Meaning(lookup, node, s) == Meaning(lookup, node, s[1..])
  {
    FirstName(s);
    CutName(s);
    assert s[..1] == ".";
    SameMeaning(lookup, node, s, s[1..]);
  }

  lemma UpMeans(lookup: Lookup, node: Node, s: string)
    requires |s| >= 2 && s[0] == '.' && s[1] == '.' && NameLength(s) == 2
    ensures Meaning(lookup, node, s) == Invalid
  {
    FirstName(s);
    assert s[..2] == "..";
  }

  // A name and everything up to the ".." that takes it back mean nothing.
  lemma TakenBack(lookup: Lookup, node: Node, s: string, r: string)
    requires node.File? ==> Normal([], Names(s)).Some? && (s == [] || s[0] == '/')
    requires node.Dir? ==> s == [] || s[0] != '/'
    requires s[..NameLength(s)] != "." && s[..NameLength(s)] != ".."
    requires var t := s[NameLength(s)..];
             Ahead(Names(t), 1).Some? && Names(r) == Ahead(Names(t), 1).value && EndOf(t, r)
    ensures node.Dir? && |r| < |s| && Meaning(lookup, node, s) == Meaning(lookup, node, r)
  {
    var t := s[NameLength(s)..];
    if node.File? {
      assert t == s;
      NothingAhead([], Names(s));
      assert false;
    }
    FirstName(s);
    CutName(s);
    var n := s[..NameLength(s)];
    assert [] + [n] == [n];
    assert Names(s)[1..] == Names(t);
    Cancelled([n], Names(t));
    EndOfEnd(s, t, r);
    SameMeaning(lookup, node, s, r);
  }

  lemma EmptyMeans(lookup: Lookup, node: Node)
    ensures Meaning(lookup, node, []) == Found(node)
  {}
}
