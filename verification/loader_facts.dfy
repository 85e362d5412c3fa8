/**
 * What the `.claude/`-layout loader (cli/internal/pack/fsloader.go) promises
 * its callers, stated over `Resolver.FilesFromDotclaudeFS`.
 */
module LoaderFacts {
  import opened Wrappers
  import opened Types
  import opened Text
  import opened Resolver

  /** Base files land under `.claude/` with the `base/` segment removed. */
  lemma BaseFilesIncluded(t: Tree, stacks: seq<string>, rel: Path)
    requires DotclaudeLayout.baseRoot in t.dirs
    requires ".claude/base/" + rel in t.files
    ensures exists i :: 0 <= i < |FilesFromDotclaudeFS(t, stacks).value|
                && FilesFromDotclaudeFS(t, stacks).value[i].relPath == ".claude/" + rel
  {
    var d := ".claude/" + rel;
    var want := FilterAllowed(stacks);
    assert HasPrefix(d, ".claude/");
    assert d[|".claude/"|..] == rel;
    assert SourceIn(DotclaudeLayout, DotclaudeLayout.baseRoot, d) == ".claude/base/" + rel;
    WinnerFromBase(t, DotclaudeLayout, want, d);
    DotclaudeIndexSources(t, want, d);
    DotclaudeUnfold(t, stacks);
    DotclaudeSourcesExist(t, want);
    EmitCovers(t, DotclaudeIndex(t, want), d);
  }

  /** Order matters: with two overlays holding the same path, the requested
      order decides which copy is installed. */
  lemma OverlayOrderDecides(t: Tree, a: string, b: string, rel: Path)
    requires a in AllowedStacks && b in AllowedStacks
    requires StackRoot(DotclaudeLayout, a) in t.dirs && StackRoot(DotclaudeLayout, a) + "/" + rel in t.files
    requires StackRoot(DotclaudeLayout, b) in t.dirs && StackRoot(DotclaudeLayout, b) + "/" + rel in t.files
    ensures DotclaudeSource(t, FilterAllowed([a, b]), ".claude/" + rel) == Some(StackRoot(DotclaudeLayout, b) + "/" + rel)
    ensures DotclaudeSource(t, FilterAllowed([b, a]), ".claude/" + rel) == Some(StackRoot(DotclaudeLayout, a) + "/" + rel)
  {
    var d := ".claude/" + rel;
    assert HasPrefix(d, ".claude/");
    assert d[|".claude/"|..] == rel;
    assert FilterAllowed([a, b]) == [a, b] by {
      assert [a, b][1..] == [b];
    }
    assert FilterAllowed([b, a]) == [b, a] by {
      assert [b, a][1..] == [a];
    }
    LastOverlayWins(t, DotclaudeLayout, [a], b, d);
    LastOverlayWins(t, DotclaudeLayout, [b], a, d);
  }

  /** A requested overlay whose directory is missing is ignored, not an error. */
  lemma MissingOverlayIgnored(t: Tree, stacks: seq<string>, s: string)
    requires StackRoot(DotclaudeLayout, s) !in t.dirs
    ensures FilesFromDotclaudeFS(t, stacks + [s]) == FilesFromDotclaudeFS(t, stacks)
  {
    IndexIgnoresMissingOverlay(t, stacks, s);
    LoaderFollowsIndex(t, stacks + [s], stacks);
  }

  lemma IndexIgnoresMissingOverlay(t: Tree, stacks: seq<string>, s: string)
    requires StackRoot(DotclaudeLayout, s) !in t.dirs
    ensures DotclaudeIndex(t, FilterAllowed(stacks + [s])) == DotclaudeIndex(t, FilterAllowed(stacks))
  {
    FilterAllowedAppend(stacks, [s]);
    var want := FilterAllowed(stacks);
    if s in AllowedStacks {
      assert FilterAllowed([s]) == [s];
      OverlaysSkipMissing(t, DotclaudeLayout, want, s, Layer(t, DotclaudeLayout, DotclaudeLayout.baseRoot));
    } else {
      assert FilterAllowed([s]) == [];
      assert want + [] == want;
    }
  }

  lemma LoaderFollowsIndex(t: Tree, a: seq<string>, b: seq<string>)
    requires DotclaudeIndex(t, FilterAllowed(a)) == DotclaudeIndex(t, FilterAllowed(b))
    ensures FilesFromDotclaudeFS(t, a) == FilesFromDotclaudeFS(t, b)
  {
    if DotclaudeLayout.baseRoot in t.dirs {
      DotclaudeUnfold(t, a);
      DotclaudeUnfold(t, b);
    }
  }

  /** The top-level walk adds every file outside `.claude/` at its own path,
      with its own bytes, and never a path below `.claude/`. */
  lemma TopLevelFilesIncluded(t: Tree, stacks: seq<string>, p: Path)
    requires DotclaudeLayout.baseRoot in t.dirs
    requires p in t.files && !HasPrefix(p, ".claude/")
    ensures exists i :: 0 <= i < |FilesFromDotclaudeFS(t, stacks).value|
              && FilesFromDotclaudeFS(t, stacks).value[i] == PackFile(p, Some(t.files[p]))
  {
    var out := FilesFromDotclaudeFS(t, stacks).value;
    var want := FilterAllowed(stacks);
    DotclaudeFilesCharacterised(t, stacks);
    assert DotclaudeSource(t, want, p) == Some(p);
    var i :| 0 <= i < |out| && out[i].relPath == p;
    assert out[i] == PackFile(p, Some(t.files[p]));
  }
}
