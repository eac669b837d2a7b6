/**
 * The path arithmetic of the terminal's `cd` command. Paths are plain
 * strings; there is no tree to walk. `cd ..` splits the current path on
 * `/`, drops the empty pieces, pops the last one and rebuilds the string
 * with a leading `/`; `cd name` glues `name` onto the current path.
 */
module Paths {
  import opened Text

  const Root: string := "/"

  /** A path as the shell prints it: a non-empty string starting with `/`. */
  predicate IsAbsolute(p: string) {
    |p| > 0 && p[0] == '/'
  }

  /** The non-empty elements of `xs`, in order (`filter(p => p)`). */
  function NonEmpty(xs: seq<string>): (r: seq<string>)
    ensures |r| <= |xs|
    ensures forall i :: 0 <= i < |r| ==> r[i] != "" && r[i] in xs
    ensures (forall i :: 0 <= i < |xs| ==> xs[i] != "") ==> r == xs
    ensures forall x :: x in xs && x != "" ==> x in r
  {
    if xs == [] then []
    else if xs[0] == "" then NonEmpty(xs[1..])
    else [xs[0]] + NonEmpty(xs[1..])
  }

  /** The non-empty `/`-separated segments of `p`. */
  function Segments(p: string): (segs: seq<string>)
    ensures forall i :: 0 <= i < |segs| ==> segs[i] != "" && '/' !in segs[i]
  {
    NonEmpty(Split(p, '/'))
  }

  /** The path rebuilt from its segments: the form `cd ..` produces. */
  predicate IsCanonical(p: string) {
    p == "/" + Join(Segments(p), "/")
  }

  /** The new current path after `cd ..`. */
  function ParentPath(p: string): (r: string)
    ensures IsAbsolute(r)
  {
    "/" + Join(DropLast(Segments(p)), "/")
  }

  /** The new current path after `cd name` from `p`. */
  function ChildPath(p: string, name: string): (r: string)
    ensures IsAbsolute(p) ==> IsAbsolute(r)
  {
    p + (if p == Root then "" else "/") + name
  }

  /** Filtering a single piece keeps it exactly when it is non-empty. */
  lemma NonEmptySingleton(x: string)
    ensures NonEmpty([x]) == if x == "" then [] else [x]
  {
    assert [x][1..] == [];
  }

  /** Filtering distributes over concatenation, so the kept pieces stay in order. */
  lemma {:induction false} NonEmptyAppend(a: seq<string>, b: seq<string>)
    ensures NonEmpty(a + b) == NonEmpty(a) + NonEmpty(b)
  {
    if a != [] {
      assert (a + b)[1..] == a[1..] + b;
      NonEmptyAppend(a[1..], b);
    } else {
      assert a + b == b;
    }
  }

  lemma NonEmptySkipsEmpty(xs: seq<string>)
    ensures NonEmpty([""] + xs) == NonEmpty(xs)
  {
    assert ([""] + xs)[1..] == xs;
  }

  /** The segments of `/a/b/...` built from non-empty, slash-free pieces are those pieces. */
  lemma SegmentsOfRooted(ys: seq<string>)
    requires forall i :: 0 <= i < |ys| ==> ys[i] != "" && '/' !in ys[i]
    ensures Segments("/" + Join(ys, "/")) == ys
  {
    var s := "/" + Join(ys, "/");
    assert s == ['/'] + Join(ys, "/");
    SplitLeadingSeparator(Join(ys, "/"), '/');
    NonEmptySkipsEmpty(Split(Join(ys, "/"), '/'));
    if ys == [] {
      assert Split("", '/') == [""];
      NonEmptySkipsEmpty([]);
    } else {
      SplitJoin(ys, '/');
    }
  }

  /** `cd ..` removes exactly the last non-empty segment of the path. */
  lemma ParentDropsLastSegment(p: string)
    ensures Segments(ParentPath(p)) == DropLast(Segments(p))
  {
    SegmentsOfRooted(DropLast(Segments(p)));
  }

  /** `cd ..` always yields a canonical path. */
  lemma ParentIsCanonical(p: string)
    ensures IsCanonical(ParentPath(p))
  {
    ParentDropsLastSegment(p);
    SegmentsOfRooted(DropLast(Segments(p)));
  }

  /** The root is canonical, has no segments, and is its own parent. */
  lemma RootFacts()
    ensures Segments(Root) == []
    ensures IsCanonical(Root)
    ensures ParentPath(Root) == Root
  {
    SegmentsOfRooted([]);
  }

  /**
   * Going into a child and back up returns to a canonical start path,
   * provided the child's name is non-empty and has no `/` in it.
   */
  lemma ParentOfChild(p: string, name: string)
    requires IsCanonical(p)
    requires name != "" && '/' !in name
    ensures Segments(ChildPath(p, name)) == Segments(p) + [name]
    ensures ParentPath(ChildPath(p, name)) == p
  {
    var segs := Segments(p);
    if p == Root {
      RootFacts();
      assert ChildPath(p, name) == "/" + Join([name], "/");
      SegmentsOfRooted([name]);
      assert segs + [name] == [name];
    } else {
      assert segs != [];
      JoinAppend(segs, name, "/");
      assert ChildPath(p, name) == "/" + Join(segs + [name], "/");
      SegmentsOfRooted(segs + [name]);
      assert DropLast(segs + [name]) == segs;
    }
  }
}
