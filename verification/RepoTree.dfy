/** Which files of a repository tree a sync lists: the README and the markdown under docs/, each once, in order. */
module RepoTree {
  import opened Common

  datatype Entry = Entry(kind: string, path: string)

  /** Lower case, as far as the names looked for go: no character outside ASCII lowers to one of their letters. */
  function Lower(s: string): string {
    seq(|s|, i requires 0 <= i < |s| => LowerChar(s[i]))
  }

  predicate IsReadme(path: string) {
    Lower(path) == "readme.md" || Lower(path) == "readme"
  }

  predicate IsDocsMarkdown(path: string) {
    var lower := Lower(path);
    "docs/" <= lower && |lower| >= 3 && lower[|lower| - 3..] == ".md"
  }

  predicate Wanted(entry: Entry) {
    entry.kind == "blob" && (IsReadme(entry.path) || IsDocsMarkdown(entry.path))
  }

  lemma {:induction false} SpellsExactly(s: string, word: string)
    requires forall i :: 0 <= i < |word| ==> !('A' <= word[i] <= 'Z')
    ensures Lower(s) == word <==> Spells(s, word)
  {
    if Spells(s, word) {
      forall i | 0 <= i < |s| ensures Lower(s)[i] == word[i] {
      }
    }
    if Lower(s) == word {
      forall i | 0 <= i < |s|
        ensures s[i] == word[i] || ('a' <= word[i] <= 'z' && s[i] as int + 32 == word[i] as int)
      {
        assert Lower(s)[i] == LowerChar(s[i]);
      }
    }
  }

  /** The wanted files are those named README.md or README, and those under docs/ that end in .md, in letters of either
      case. */
  lemma {:induction false} WantedExactly(entry: Entry)
    ensures Wanted(entry) <==>
            && entry.kind == "blob"
            && var n := |entry.path|;
               || Spells(entry.path, "readme.md") || Spells(entry.path, "readme")
               || (n >= 5 && Spells(entry.path[..5], "docs/") && Spells(entry.path[n - 3..], ".md"))
  {
    var path := entry.path;
    SpellsExactly(path, "readme.md");
    SpellsExactly(path, "readme");
    if |path| >= 5 {
      SpellsExactly(path[..5], "docs/");
      SpellsExactly(path[|path| - 3..], ".md");
      assert Lower(path)[..5] == Lower(path[..5]) && Lower(path)[|path| - 3..] == Lower(path[|path| - 3..]);
    }
  }

  /** The order of strings by their characters. */
  predicate Precedes(a: string, b: string) {
    b != "" && (a == "" || a[0] < b[0] || (a[0] == b[0] && Precedes(a[1..], b[1..])))
  }

  lemma {:induction false} PrecedesTransitive(a: string, b: string, c: string)
    requires Precedes(a, b) && Precedes(b, c)
    ensures Precedes(a, c)
  {
    if a != "" && a[0] == b[0] && b[0] == c[0] {
      PrecedesTransitive(a[1..], b[1..], c[1..]);
    }
  }

  lemma {:induction false} PrecedesTotal(a: string, b: string)
    ensures Precedes(a, b) || a == b || Precedes(b, a)
  {
    if a != "" && b != "" && a[0] == b[0] {
      PrecedesTotal(a[1..], b[1..]);
      assert a == [a[0]] + a[1..] && b == [b[0]] + b[1..];
    }
  }

  lemma {:induction false} PrecedesIrreflexive(a: string)
    ensures !Precedes(a, a)
  {
    if a == "" {
    } else {
      PrecedesIrreflexive(a[1..]);
    }
  }

  predicate Ordered(paths: seq<string>) {
    forall i, j :: 0 <= i < j < |paths| ==> Precedes(paths[i], paths[j])
  }

  lemma {:induction false} OrderedIsDistinct(paths: seq<string>)
    requires Ordered(paths)
    ensures forall i, j :: 0 <= i < j < |paths| ==> paths[i] != paths[j]
  {
    forall i, j | 0 <= i < j < |paths| ensures paths[i] != paths[j] {
      PrecedesIrreflexive(paths[i]);
    }
  }

  function Inserted(path: string, paths: seq<string>): seq<string> {
    if paths == [] then [path]
    else if path == paths[0] then paths
    else if Precedes(path, paths[0]) then [path] + paths
    else [paths[0]] + Inserted(path, paths[1..])
  }

  lemma {:induction false} InsertedMembers(path: string, paths: seq<string>)
    ensures forall p :: p in Inserted(path, paths) <==> p == path || p in paths
  {
    if paths == [] {
    } else {
      InsertedMembers(path, paths[1..]);
      assert paths == [paths[0]] + paths[1..];
    }
  }

  lemma {:induction false} InsertedOrdered(path: string, paths: seq<string>)
    requires Ordered(paths)
    ensures Ordered(Inserted(path, paths))
  {
    if paths != [] && path != paths[0] {
      PrecedesTotal(path, paths[0]);
      if Precedes(path, paths[0]) {
        PrependOrdered(path, paths);
      } else {
        InsertedOrdered(path, paths[1..]);
        InsertedMembers(path, paths[1..]);
        var rest := Inserted(path, paths[1..]);
        forall j | 0 <= j < |rest| ensures Precedes(paths[0], rest[j]) {
          assert rest[j] == path || rest[j] in paths[1..];
        }
      }
    }
  }

  lemma {:induction false} PrependOrdered(path: string, paths: seq<string>)
    requires Ordered(paths) && paths != [] && Precedes(path, paths[0])
    ensures Ordered([path] + paths)
  {
    forall j | 0 <= j < |paths| ensures Precedes(path, paths[j]) {
      if j > 0 {
        PrecedesTransitive(path, paths[0], paths[j]);
      }
    }
  }

  /** Collects the wanted paths, then orders them without repetition. */
  method RepoTreeFiles(tree: seq<Entry>) returns (paths: seq<string>)
    ensures Ordered(paths)
    ensures forall p :: p in paths <==> exists i :: 0 <= i < |tree| && Wanted(tree[i]) && tree[i].path == p
  {
    var found: seq<string> := [];
    for i := 0 to |tree|
      invariant forall p :: p in found <==> exists j :: 0 <= j < i && Wanted(tree[j]) && tree[j].path == p
    {
      if Wanted(tree[i]) {
        found := found + [tree[i].path];
      }
    }
    paths := [];
    for i := 0 to |found|
      invariant Ordered(paths)
      invariant forall p :: p in paths <==> p in found[..i]
    {
      InsertedOrdered(found[i], paths);
      InsertedMembers(found[i], paths);
      paths := Inserted(found[i], paths);
      assert found[..i + 1] == found[..i] + [found[i]];
    }
    assert found[..|found|] == found;
  }

  /** One string comes before another if it is a proper beginning of it, or has the smaller character where they first
      differ. */
  lemma {:induction false} PrecedesExactly(a: string, b: string)
    ensures Precedes(a, b) <==> exists k :: FirstDifference(a, b, k)
  {
    if b == "" {
    } else if a == "" {
      assert FirstDifference(a, b, 0);
    } else if a[0] != b[0] {
      assert a[0] < b[0] ==> FirstDifference(a, b, 0);
    } else {
      PrecedesExactly(a[1..], b[1..]);
      if k :| FirstDifference(a[1..], b[1..], k) {
        DifferenceLater(a, b, k);
      }
      if k :| FirstDifference(a, b, k) {
        DifferenceEarlier(a, b, k);
      }
    }
  }

  /** They agree up to k, where the first ends or has the smaller character. */
  predicate FirstDifference(a: string, b: string, k: int) {
    && 0 <= k <= |a| && k < |b| && (forall i :: 0 <= i < k ==> a[i] == b[i]) && (k == |a| || a[k] < b[k])
  }

  lemma {:induction false} DifferenceLater(a: string, b: string, k: int)
    requires a != "" && b != "" && a[0] == b[0] && FirstDifference(a[1..], b[1..], k)
    ensures FirstDifference(a, b, k + 1)
  {
    forall i | 0 <= i < k + 1 ensures a[i] == b[i] {
      if i > 0 {
        assert a[1..][i - 1] == b[1..][i - 1];
      }
    }
  }

  lemma {:induction false} DifferenceEarlier(a: string, b: string, k: int)
    requires a != "" && b != "" && a[0] == b[0] && FirstDifference(a, b, k)
    ensures FirstDifference(a[1..], b[1..], k - 1)
  {
  }
}
