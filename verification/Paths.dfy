/** The functions of Go's `path` package that the ingest calls, on slash-separated paths. */
module Paths {
  import opened Text

  function JoinWith(parts: seq<string>): string {
    if parts == [] then ""
    else if |parts| == 1 then parts[0]
    else parts[0] + "/" + JoinWith(parts[1..])
  }

  /** The elements of a path read one by one: "." and empty ones are dropped, ".." takes back the one
      before it, if there is one to take back. */
  function Reduce(done: seq<string>, todo: seq<string>, rooted: bool): seq<string>
    decreases |todo|
  {
    if todo == [] then done
    else Reduce(ReduceOne(done, todo[0], rooted), todo[1..], rooted)
  }

  function ReduceOne(done: seq<string>, part: string, rooted: bool): seq<string> {
    if part == "" || part == "." then done
    else if part != ".." then done + [part]
    else if done != [] && done[|done| - 1] != ".." then done[..|done| - 1]
    else if rooted then done
    else done + [".."]
  }

  /** path.Clean. */
  function Clean(p: string): string {
    if p == "" then "."
    else
      var rooted := p[0] == '/';
      var joined := JoinWith(Reduce([], Split(p, '/'), rooted));
      if rooted then "/" + joined else if joined == "" then "." else joined
  }

  function NonEmpty(parts: seq<string>): seq<string> {
    if parts == [] then [] else (if parts[0] == "" then [] else [parts[0]]) + NonEmpty(parts[1..])
  }

  /** path.Join. */
  function Join(parts: seq<string>): string {
    if NonEmpty(parts) == [] then "" else Clean(JoinWith(NonEmpty(parts)))
  }

  function WithoutEndSlashes(p: string): string {
    if p != "" && p[|p| - 1] == '/' then WithoutEndSlashes(p[..|p| - 1]) else p
  }

  function AfterLastSlash(p: string): (r: string)
    ensures '/' !in r
  {
    if p == "" || p[|p| - 1] == '/' then "" else AfterLastSlash(p[..|p| - 1]) + [p[|p| - 1]]
  }

  function UpToLastSlash(p: string): string {
    if p == "" || p[|p| - 1] == '/' then p else UpToLastSlash(p[..|p| - 1])
  }

  /** path.Base. */
  function Base(p: string): (r: string)
    ensures r != "" && ('/' in r ==> r == "/")
  {
    if p == "" then "."
    else
      var last := AfterLastSlash(WithoutEndSlashes(p));
      if last == "" then "/" else last
  }

  /** path.Dir. */
  function Dir(p: string): string { Clean(UpToLastSlash(p)) }

  /** A single element that cleaning keeps. */
  predicate Plain(part: string) {
    part != "" && '/' !in part && part != "." && part != ".."
  }

  lemma {:induction false} SplitAppend(a: string, b: string)
    ensures Split(a + "/" + b, '/') == Split(a, '/') + Split(b, '/')
  {
    var s := a + "/" + b;
    if a == "" {
      assert s == ['/'] + b;
      assert s[1..] == b;
    } else {
      assert s[1..] == a[1..] + "/" + b;
      SplitAppend(a[1..], b);
    }
  }

  lemma {:induction false} ReduceAppend(done: seq<string>, a: seq<string>, b: seq<string>, rooted: bool)
    ensures Reduce(done, a + b, rooted) == Reduce(Reduce(done, a, rooted), b, rooted)
    decreases |a|
  {
    if a == [] {
      assert a + b == b;
    } else {
      assert (a + b)[1..] == a[1..] + b;
      ReduceAppend(ReduceOne(done, a[0], rooted), a[1..], b, rooted);
    }
  }

  /** Without ".." nothing is taken back, so what was read before stays in front. */
  lemma {:induction false} ReduceBehind(front: seq<string>, done: seq<string>, todo: seq<string>)
    requires ".." !in todo
    ensures Reduce(front + done, todo, false) == front + Reduce(done, todo, false)
    decreases |todo|
  {
    if todo != [] {
      var next := ReduceOne(done, todo[0], false);
      assert ReduceOne(front + done, todo[0], false) == front + next;
      ReduceBehind(front, next, todo[1..]);
    }
  }

  lemma JoinWithHead(first: string, rest: seq<string>)
    requires rest != []
    ensures JoinWith([first] + rest) == first + "/" + JoinWith(rest)
  {
    assert ([first] + rest)[1..] == rest;
  }

  lemma JoinWithTwo(a: string, b: string)
    ensures JoinWith([a, b]) == a + "/" + b
  {
    JoinWithHead(a, [b]);
    assert [a] + [b] == [a, b];
  }

  lemma {:induction false} NonEmptyParts(parts: seq<string>)
    requires "" !in parts
    ensures NonEmpty(parts) == parts
  {
    if parts != [] {
      NonEmptyParts(parts[1..]);
    }
  }

  lemma JoinTwo(a: string, b: string)
    requires a != "" && b != ""
    ensures Join([a, b]) == Clean(a + "/" + b)
  {
    NonEmptyParts([a, b]);
    JoinWithTwo(a, b);
  }

  lemma JoinThree(a: string, b: string, c: string)
    requires a != "" && b != "" && c != ""
    ensures Join([a, b, c]) == Clean(a + "/" + (b + "/" + c))
  {
    NonEmptyParts([a, b, c]);
    JoinWithTwo(b, c);
    JoinWithHead(a, [b, c]);
    assert [a] + [b, c] == [a, b, c];
  }

  /** Cleaning a path below a plain folder. */
  lemma CleanInFolder(folder: string, p: string)
    requires Plain(folder)
    ensures Clean(folder + "/" + p)
         == var joined := JoinWith(Reduce([folder], Split(p, '/'), false)); if joined == "" then "." else joined
  {
    SplitAppend(folder, p);
    SplitWhole(folder, '/');
    assert (folder + "/" + p)[0] == folder[0];
    ReduceHead(folder, Split(p, '/'));
  }

  lemma ReduceHead(folder: string, parts: seq<string>)
    requires Plain(folder)
    ensures Reduce([], [folder] + parts, false) == Reduce([folder], parts, false)
  {
    assert ([folder] + parts)[1..] == parts;
    assert [] + [folder] == [folder];
  }

  /** A relative path that does not go up can be joined below a folder before or after cleaning. */
  lemma CleanBelow(folder: string, p: string)
    requires Plain(folder) && p != "" && p[0] != '/'
    requires ".." !in Split(p, '/') && Reduce([], Split(p, '/'), false) != []
    ensures Clean(folder + "/" + p) == folder + "/" + Clean(p)
  {
    CleanInFolder(folder, p);
    var parts := Split(p, '/');
    assert [folder] + [] == [folder];
    ReduceBehind([folder], [], parts);
    JoinWithHead(folder, Reduce([], parts, false));
    ReducedIsNotEmpty(parts);
  }

  lemma {:induction false} ReducedParts(done: seq<string>, todo: seq<string>)
    requires "" !in done
    ensures "" !in Reduce(done, todo, false)
    decreases |todo|
  {
    if todo != [] {
      ReducedParts(ReduceOne(done, todo[0], false), todo[1..]);
    }
  }

  lemma ReducedIsNotEmpty(parts: seq<string>)
    requires Reduce([], parts, false) != []
    ensures JoinWith(Reduce([], parts, false)) != ""
  {
    ReducedParts([], parts);
    assert Reduce([], parts, false)[0] in Reduce([], parts, false);
  }

  /** What becomes of the last element of a path behind two plain ones. */
  function BehindTwo(a: string, b: string, last: string): string {
    if last == "." || last == "/" then a + "/" + b
    else if last == ".." then a
    else a + "/" + b + "/" + last
  }

  lemma ReduceLast(a: string, b: string, last: string)
    requires last != "" && ('/' in last ==> last == "/") && b != ".."
    ensures Reduce([a, b], Split(last, '/'), false)
         == if last == "." || last == "/" then [a, b] else if last == ".." then [a] else [a, b, last]
  {
    SplitWhole(last, '/');
    var parts := Split(last, '/');
    if last == "/" {
      assert last[1..] == "" && parts == ["", ""];
      assert parts[1..] == [""] && [""][1..] == [];
    } else {
      assert parts == [last] && parts[1..] == [];
      assert [a, b][..1] == [a];
      assert [a, b] + [last] == [a, b, last];
    }
  }

  lemma CleanBehindTwo(a: string, b: string, last: string)
    requires Plain(a) && Plain(b)
    ensures Clean(a + "/" + (b + "/" + last))
         == var joined := JoinWith(Reduce([a, b], Split(last, '/'), false)); if joined == "" then "." else joined
  {
    CleanInFolder(a, b + "/" + last);
    SplitAppend(b, last);
    SplitWhole(b, '/');
    assert ([b] + Split(last, '/'))[1..] == Split(last, '/');
    assert [a] + [b] == [a, b];
  }

  lemma JoinWithThree(a: string, b: string, c: string)
    ensures JoinWith([a, b, c]) == a + "/" + b + "/" + c
  {
    JoinWithTwo(b, c);
    JoinWithHead(a, [b, c]);
    assert [a] + [b, c] == [a, b, c];
    assert a + "/" + (b + "/" + c) == a + "/" + b + "/" + c;
  }

  lemma JoinBehindTwo(a: string, b: string, last: string)
    requires Plain(a) && Plain(b) && last != "" && ('/' in last ==> last == "/")
    ensures Join([a, b, last]) == BehindTwo(a, b, last)
  {
    JoinThree(a, b, last);
    CleanBehindTwo(a, b, last);
    ReduceLast(a, b, last);
    var joined := JoinWith(Reduce([a, b], Split(last, '/'), false));
    assert joined == BehindTwo(a, b, last) by {
      JoinWithTwo(a, b);
      JoinWithThree(a, b, last);
    }
    assert joined != "";
  }

  lemma {:induction false} LastSlash(folder: string, name: string)
    requires '/' !in name
    ensures AfterLastSlash(folder + "/" + name) == name
    ensures UpToLastSlash(folder + "/" + name) == folder + "/"
  {
    var p := folder + "/" + name;
    if name == "" {
      assert p == folder + "/";
    } else {
      var front := name[..|name| - 1];
      assert p[..|p| - 1] == folder + "/" + front;
      LastSlash(folder, front);
    }
  }

  lemma BaseInFolder(folder: string, name: string)
    requires Plain(name)
    ensures Base(folder + "/" + name) == name
  {
    var p := folder + "/" + name;
    assert p[|p| - 1] == name[|name| - 1];
    LastSlash(folder, name);
  }

  lemma DirOfFile(folder: string, name: string)
    requires Plain(folder) && Plain(name)
    ensures Dir(folder + "/" + name) == folder
  {
    LastSlash(folder, name);
    assert folder + "/" == folder + "/" + "";
    CleanInFolder(folder, "");
    assert Split("", '/') == [""] && [""][1..] == [];
    assert Reduce([folder], [""], false) == [folder];
  }

  // ---- The rules of path.Clean ----

  /** What is left of a path: no empty element, no ".", ".." only in front, and none at the root. */
  ghost predicate Cleaned(parts: seq<string>, rooted: bool) {
    && (forall i :: 0 <= i < |parts| ==> parts[i] != "" && parts[i] != ".")
    && (forall i, j :: 0 <= i < j < |parts| && parts[j] == ".." ==> parts[i] == "..")
    && (rooted ==> forall i :: 0 <= i < |parts| ==> parts[i] != "..")
  }

  lemma {:induction false} ReducedIsCleaned(done: seq<string>, todo: seq<string>, rooted: bool)
    requires Cleaned(done, rooted)
    ensures Cleaned(Reduce(done, todo, rooted), rooted)
    decreases |todo|
  {
    if todo != [] {
      ReducedIsCleaned(ReduceOne(done, todo[0], rooted), todo[1..], rooted);
    }
  }

  /** A clean list of elements is left as it is: cleaning again changes nothing. */
  lemma {:induction false} CleanedStays(done: seq<string>, todo: seq<string>, rooted: bool)
    requires Cleaned(done + todo, rooted)
    ensures Reduce(done, todo, rooted) == done + todo
    decreases |todo|
  {
    if todo != [] {
      var one := done + [todo[0]];
      assert one + todo[1..] == done + todo;
      assert (done + todo)[|done|] == todo[0];
      assert done != [] ==> (done + todo)[|done| - 1] == done[|done| - 1];
      assert ReduceOne(done, todo[0], rooted) == one;
      CleanedStays(one, todo[1..], rooted);
    } else {
      assert done + todo == done;
    }
  }

  lemma ReduceTwice(todo: seq<string>, rooted: bool)
    ensures Cleaned(Reduce([], todo, rooted), rooted)
    ensures Reduce([], Reduce([], todo, rooted), rooted) == Reduce([], todo, rooted)
  {
    ReducedIsCleaned([], todo, rooted);
    var parts := Reduce([], todo, rooted);
    assert [] + parts == parts;
    CleanedStays([], parts, rooted);
  }

  /** The rules one by one: "." and empty elements go, ".." takes back the element before it, stays if
      there is none, and goes at the root. */
  lemma ReductionRules(done: seq<string>, x: string, rooted: bool)
    ensures ReduceOne(done, "", rooted) == done && ReduceOne(done, ".", rooted) == done
    ensures Plain(x) ==> ReduceOne(done, x, rooted) == done + [x]
    ensures Plain(x) ==> ReduceOne(ReduceOne(done, x, rooted), "..", rooted) == done
    ensures ReduceOne([], "..", false) == [".."] && ReduceOne([], "..", true) == []
    ensures ReduceOne(done + [".."], "..", false) == done + ["..", ".."]
  {
    assert (done + [x])[..|done|] == done;
    assert done + [".."] + [".."] == done + ["..", ".."];
    assert [] + [".."] == [".."];
  }

  /** A rooted path stays rooted, a relative one relative, and what is left of nothing is ".". */
  lemma CleanOfElements(p: string)
    requires p != ""
    ensures var parts := Reduce([], Split(p, '/'), p[0] == '/');
      Clean(p) == if p[0] == '/' then "/" + JoinWith(parts) else if parts == [] then "." else JoinWith(parts)
    ensures Clean("") == "."
  {
    var parts := Reduce([], Split(p, '/'), p[0] == '/');
    ReducedIsCleaned([], Split(p, '/'), p[0] == '/');
    if parts != [] {
      assert parts[0] != "";
    }
  }

  /** Join drops empty elements; of none at all it makes the empty path. */
  lemma JoinDropsEmpty(a: seq<string>, b: seq<string>)
    ensures Join(a + [""] + b) == Join(a + b) && Join([]) == "" && Join([""]) == ""
  {
    NonEmptyAppend(a + [""], b);
    NonEmptyAppend(a, [""]);
    NonEmptyAppend(a, b);
    assert [""][1..] == [];
    assert NonEmpty([""]) == [];
    assert NonEmpty(a) + [] == NonEmpty(a);
    assert NonEmpty(a + [""] + b) == NonEmpty(a + b);
  }

  lemma {:induction false} NonEmptyAppend(a: seq<string>, b: seq<string>)
    ensures NonEmpty(a + b) == NonEmpty(a) + NonEmpty(b)
  {
    if a == [] {
      assert a + b == b;
    } else {
      assert (a + b)[1..] == a[1..] + b;
      NonEmptyAppend(a[1..], b);
    }
  }

  /** Base of a name is the name; slashes at the end do not count; nothing is ".", a root is "/". */
  lemma BaseRules(p: string)
    ensures Plain(p) ==> Base(p) == p
    ensures p != "" ==> Base(p + "/") == Base(p)
    ensures Base("") == "."
    ensures Base(p) == "/" <==> p != "" && forall i :: 0 <= i < |p| ==> p[i] == '/'
  {
    RootBase(p);
    if Plain(p) {
      NoSlash(p);
    }
    assert (p + "/")[..|p|] == p;
  }

  lemma {:induction false} RootBase(p: string)
    ensures WithoutEndSlashes(p) == "" <==> forall i :: 0 <= i < |p| ==> p[i] == '/'
    ensures WithoutEndSlashes(p) != "" ==> AfterLastSlash(WithoutEndSlashes(p)) != ""
  {
    if p != "" && p[|p| - 1] == '/' {
      RootBase(p[..|p| - 1]);
    }
  }

  lemma {:induction false} NoSlash(p: string)
    requires '/' !in p
    ensures AfterLastSlash(p) == p && WithoutEndSlashes(p) == p
  {
    if p != "" {
      NoSlash(p[..|p| - 1]);
      assert p == p[..|p| - 1] + [p[|p| - 1]];
    }
  }
}
