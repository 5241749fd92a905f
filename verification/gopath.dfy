/**
 Go's `path/filepath.Clean` and `filepath.Join` on a Unix host, modelled as lexical
 processing of the list of slash-separated elements:

 - empty and `.` elements are dropped;
 - `..` removes the element before it when that element is not itself `..`;
 - a `..` with nothing to remove is kept in a relative path and dropped in a rooted one;
 - the result is re-joined with single slashes, prefixed by `/` when rooted, and an
   empty relative result becomes `.`.
 */
module GoPath {
  import opened Text

  const Separator: char := '/'

  /** A path is rooted when it starts with the separator. */
  predicate Rooted(p: string)
  {
    |p| > 0 && p[0] == Separator
  }

  /** An ordinary element name: not empty, not `.` or `..`, and free of separators. */
  predicate IsName(e: string)
  {
    e != "" && e != "." && e != ".." && Separator !in e
  }

  /**
   The shape of a cleaned element list: every element is a name or `..`, the `..`
   elements form a leading run, and a rooted path has none.
   */
  predicate Normal(rooted: bool, st: seq<string>)
  {
    && (forall i :: 0 <= i < |st| ==> st[i] == ".." || IsName(st[i]))
    && (forall i, j :: 0 <= i < j < |st| && st[j] == ".." ==> st[i] == "..")
    && (rooted ==> forall i :: 0 <= i < |st| ==> st[i] != "..")
  }

  /** Applies one element to the stack of elements kept so far. */
  function Push(rooted: bool, st: seq<string>, e: string): seq<string>
  {
    if e == "" || e == "." then st
    else if e == ".." then
      (if |st| > 0 && st[|st| - 1] != ".." then st[..|st| - 1]
       else if rooted then st
       else st + [".."])
    else st + [e]
  }

  /**
   Applies the elements `es` left to right. Starting from a cleaned stack, the
   result is again a cleaned element list.
   */
  function Resolve(rooted: bool, st: seq<string>, es: seq<string>): (r: seq<string>)
    requires Normal(rooted, st)
    requires forall i :: 0 <= i < |es| ==> Separator !in es[i]
    ensures Normal(rooted, r)
    decreases |es|
  {
    if |es| == 0 then st
    else
      var st' := Push(rooted, st, es[0]);
      assert Normal(rooted, st') by { PushNormal(rooted, st, es[0]); }
      Resolve(rooted, st', es[1..])
  }

  /** `Push` keeps an element list cleaned. */
  lemma PushNormal(rooted: bool, st: seq<string>, e: string)
    requires Normal(rooted, st)
    requires Separator !in e
    ensures Normal(rooted, Push(rooted, st, e))
  {
    if e == ".." && !(|st| > 0 && st[|st| - 1] != "..") && !rooted {
      var r := st + [".."];
      forall i, j | 0 <= i < j < |r| && r[j] == ".."
        ensures r[i] == ".."
      {
        if |st| > 0 {
          assert st[|st| - 1] == "..";
          if i < |st| - 1 {
            assert st[i] == st[i] && st[|st| - 1] == "..";
          }
        }
      }
    }
  }

  /** The text of a cleaned element list. */
  function Render(rooted: bool, st: seq<string>): string
  {
    if rooted then [Separator] + JoinWith(st, Separator)
    else if |st| == 0 then "."
    else JoinWith(st, Separator)
  }

  /** The cleaned element list of `p`. */
  function Elements(p: string): (r: seq<string>)
    ensures Normal(Rooted(p), r)
  {
    Resolve(Rooted(p), [], Split(p, Separator))
  }

  /**
   Go's `filepath.Clean`: the shortest lexically equivalent path. The result is never
   empty, and it is rooted exactly when `p` is.
   */
  function Clean(p: string): (r: string)
    ensures |r| > 0
    ensures Rooted(r) <==> Rooted(p)
  {
    var st := Elements(p);
    assert !Rooted(p) && |st| > 0 ==> !Rooted(JoinWith(st, Separator)) by {
      if !Rooted(p) && |st| > 0 { JoinFirst(st); }
    }
    Render(Rooted(p), st)
  }

  /** Go's `filepath.Join(a, b)`: joins the non-empty arguments with `/`, then cleans. */
  function Join(a: string, b: string): (r: string)
    ensures r == "" <==> a == "" && b == ""
    ensures r != "" ==> Clean(r) == r
  {
    if a == "" && b == "" then ""
    else
      var p := if a == "" then b else if b == "" then a else a + [Separator] + b;
      CleanIdempotent(p);
      Clean(p)
  }

  /** A joined list of non-empty elements starts with the first element's first character. */
  lemma JoinFirst(st: seq<string>)
    requires |st| > 0 && |st[0]| > 0
    ensures |JoinWith(st, Separator)| > 0 && JoinWith(st, Separator)[0] == st[0][0]
  {
  }

  /** Applying elements in two batches is applying them all. */
  lemma {:induction false} ResolveAppend(rooted: bool, st: seq<string>, a: seq<string>, b: seq<string>)
    requires Normal(rooted, st)
    requires forall i :: 0 <= i < |a| ==> Separator !in a[i]
    requires forall i :: 0 <= i < |b| ==> Separator !in b[i]
    ensures Resolve(rooted, st, a + b) == Resolve(rooted, Resolve(rooted, st, a), b)
    decreases |a|
  {
    if |a| == 0 {
      assert a + b == b;
    } else {
      PushNormal(rooted, st, a[0]);
      assert (a + b)[0] == a[0];
      assert (a + b)[1..] == a[1..] + b;
      ResolveAppend(rooted, Push(rooted, st, a[0]), a[1..], b);
    }
  }

  /** Applying the rest of an already cleaned list appends it unchanged. */
  lemma {:induction false} ResolveNormal(rooted: bool, st: seq<string>, es: seq<string>)
    requires Normal(rooted, st + es)
    ensures Normal(rooted, st)
    ensures forall i :: 0 <= i < |es| ==> Separator !in es[i]
    ensures Resolve(rooted, st, es) == st + es
    decreases |es|
  {
    var all := st + es;
    assert forall i :: 0 <= i < |st| ==> st[i] == all[i];
    assert forall i :: 0 <= i < |es| ==> es[i] == all[|st| + i];
    if |es| > 0 {
      assert Push(rooted, st, es[0]) == st + [es[0]] by {
        if es[0] == ".." {
          assert !rooted;
          if |st| > 0 {
            assert all[|st| - 1] == ".." && all[|st|] == "..";
          }
        }
      }
      assert st + [es[0]] + es[1..] == all;
      ResolveNormal(rooted, st + [es[0]], es[1..]);
    } else {
      assert all == st;
    }
  }

  /** Cleaning the text of a cleaned element list gives the same text back. */
  lemma CleanRender(rooted: bool, st: seq<string>)
    requires Normal(rooted, st)
    ensures Clean(Render(rooted, st)) == Render(rooted, st)
  {
    if rooted && |st| == 0 {
      CleanRoot();
    } else if rooted {
      CleanRenderRooted(st);
    } else if |st| == 0 {
      CleanDot();
    } else {
      CleanRenderRelative(st);
    }
  }

  lemma CleanRoot()
    ensures Clean("/") == "/"
  {
    var es: seq<string> := ["", ""];
    SplitAppend([], Separator, []);
    assert Split("/", Separator) == es;
    assert es[1..] == [""] && es[1..][1..] == [];
    assert Elements("/") == Resolve(true, [], [""]) == [];
  }

  lemma CleanDot()
    ensures Clean(".") == "."
  {
    SplitNoSep(".", Separator);
    assert Split(".", Separator) == ["."];
    assert ["."][1..] == [];
    assert Elements(".") == Resolve(false, [], []) == [];
  }

  lemma CleanRenderRooted(st: seq<string>)
    requires Normal(true, st) && |st| > 0
    ensures Clean(Render(true, st)) == Render(true, st)
  {
    var q := Render(true, st);
    var j := JoinWith(st, Separator);
    assert q == [] + [Separator] + j;
    SplitAppend([], Separator, j);
    SplitJoin(st, Separator);
    var es := [""] + st;
    assert Split(q, Separator) == es;
    assert es[1..] == st;
    ResolveNormal(true, [], st);
    assert [] + st == st;
    assert Elements(q) == st;
  }

  lemma CleanRenderRelative(st: seq<string>)
    requires Normal(false, st) && |st| > 0
    ensures Clean(Render(false, st)) == Render(false, st)
  {
    var q := Render(false, st);
    JoinFirst(st);
    assert !Rooted(q);
    SplitJoin(st, Separator);
    ResolveNormal(false, [], st);
    assert [] + st == st;
    assert Elements(q) == st;
  }

  /** `Clean` is idempotent: a cleaned path is already clean. */
  lemma CleanIdempotent(p: string)
    ensures Clean(Clean(p)) == Clean(p)
  {
    CleanRender(Rooted(p), Elements(p));
  }

  /**
   Joining an element name onto a cleaned relative path extends its element list by
   that name.
   */
  lemma JoinName(st: seq<string>, name: string)
    requires Normal(false, st)
    requires IsName(name)
    ensures Join(Render(false, st), name) == Render(false, st + [name])
  {
    if |st| == 0 {
      assert st + [name] == [name];
      JoinDotName(name);
    } else {
      var p := Render(false, st);
      var es := st + [name];
      assert Normal(false, es);
      JoinSnoc(st, name, Separator);
      assert p + [Separator] + name == JoinWith(es, Separator);
      SplitJoin(es, Separator);
      ResolveNormal(false, [], es);
      assert [] + es == es;
    }
  }

  /** `.` joined with a name is the name. */
  lemma JoinDotName(name: string)
    requires IsName(name)
    ensures Join(".", name) == name
  {
    SplitAppend(".", Separator, name);
    SplitNoSep(name, Separator);
    assert Split("." + [Separator] + name, Separator) == [".", name];
    assert [".", name][1..] == [name];
    assert Resolve(false, [], [name]) == [name];
  }

  /**
   Joining `..` onto a relative path made of names only removes its last element;
   removing the only element gives `.`.
   */
  lemma JoinParent(st: seq<string>)
    requires |st| > 0
    requires forall i :: 0 <= i < |st| ==> IsName(st[i])
    ensures Join(Render(false, st), "..") == Render(false, st[..|st| - 1])
  {
    var p := Render(false, st);
    assert Normal(false, st);
    JoinSnoc(st, "..", Separator);
    var es := st + [".."];
    assert p + [Separator] + ".." == JoinWith(es, Separator);
    SplitJoin(es, Separator);
    ResolveNormal(false, [], st);
    assert [] + st == st;
    ResolveAppend(false, [], st, [".."]);
    assert Resolve(false, st, [".."]) == st[..|st| - 1];
    JoinFirst(st);
  }
}
