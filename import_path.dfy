/**
 * `getRelativeImportPath`: turns the path of the attributes file, relative to
 * the directory of the file that imports it, into a module specifier.
 * `path.relative(path.parse(from).dir, to)` is a Node library call; its
 * result is the input `relative` here.
 */
module ImportPath {
  import opened Results
  import opened Strings

  /** Backslashes become slashes, then the first `.d.ts` becomes `.ts`, then the first `.ts` goes. */
  function Normalized(relative: string): string
  {
    ReplaceFirst(ReplaceFirst(ReplaceChar(relative, '\\', '/'), ".d.ts", ".ts"), ".ts", "")
  }

  function RelativeImportPath(relative: string): (r: string)
    ensures |r| > 0 && r[0] == '.'
    ensures '\\' !in r
    ensures r == Normalized(relative) <==> StartsWith(Normalized(relative), ".")
    ensures r != Normalized(relative) ==> r == "./" + Normalized(relative)
  {
    NormalizedHasNoBackslash(relative);
    var n := Normalized(relative);
    if StartsWith(n, ".") then n else "./" + n
  }

  lemma NormalizedHasNoBackslash(relative: string)
    ensures '\\' !in Normalized(relative)
  {
    var s0 := ReplaceChar(relative, '\\', '/');
    ReplaceFirstAvoids(s0, ".d.ts", ".ts", '\\');
    ReplaceFirstAvoids(ReplaceFirst(s0, ".d.ts", ".ts"), ".ts", "", '\\');
  }

  /** Replacing cannot introduce a character that neither the text nor the replacement has. */
  lemma ReplaceFirstAvoids(s: string, p: string, rep: string, c: char)
    requires c !in s && c !in rep
    ensures c !in ReplaceFirst(s, p, rep)
  {
    match IndexOf(s, p)
    case None =>
    case Some(i) =>
      assert c !in s[..i] && c !in s[i + |p|..];
  }

  /** No `.` of `s` is followed by `d` or `t`, so no `.d.ts` or `.ts` can start inside it. */
  predicate NoExtensionMarker(s: string)
  {
    forall i :: 0 <= i < |s| - 1 && s[i] == '.' ==> s[i + 1] != 'd' && s[i + 1] != 't'
  }

  /** In `base + ext` with `ext` starting with `.`, a pattern `.d…`/`.t…` first occurs at `|base|`. */
  lemma FirstAtExtension(base: string, ext: string, p: string)
    requires NoExtensionMarker(base)
    requires |p| >= 2 && p[0] == '.' && (p[1] == 'd' || p[1] == 't')
    requires |ext| >= 1 && ext[0] == '.'
    ensures forall j: nat :: j < |base| ==> !OccursAt(base + ext, p, j)
  {
    var s := base + ext;
    forall j: nat | j < |base|
      ensures !OccursAt(s, p, j)
    {
      if j + |p| <= |s| {
        assert s[j..j + |p|][0] == s[j] && s[j..j + |p|][1] == s[j + 1];
        if j + 1 < |base| {
          assert s[j] == base[j] && s[j + 1] == base[j + 1];
        } else {
          assert s[j + 1] == '.';
        }
      }
    }
  }

  /**
   * The attributes file's own declaration (`x.d.ts`) or source (`x.ts`) is
   * imported as `x`, with `./` added unless the path already starts with `.`
   * (as `../` and `./` paths do). The stem `x` has no backslash and no `.`
   * followed by `d` or `t`, so no earlier `.d.ts` or `.ts` can be found in it.
   */
  lemma DeclarationFileImport(base: string)
    requires NoExtensionMarker(base) && '\\' !in base
    ensures RelativeImportPath(base + ".d.ts") == if StartsWith(base, ".") then base else "./" + base
    ensures RelativeImportPath(base + ".ts") == if StartsWith(base, ".") then base else "./" + base
  {
    NormalizedDeclaration(base);
    NormalizedSource(base);
  }

  lemma NormalizedDeclaration(base: string)
    requires NoExtensionMarker(base) && '\\' !in base
    ensures Normalized(base + ".d.ts") == base
  {
    var d := base + ".d.ts";
    ReplaceCharAbsent(d, '\\', '/');
    FirstAtExtension(base, ".d.ts", ".d.ts");
    assert d[|base|..|base| + 5] == ".d.ts";
    FirstOccurrence(d, ".d.ts", |base|);
    assert d[..|base|] == base && d[|base| + 5..] == [];
    assert ReplaceFirst(d, ".d.ts", ".ts") == base + ".ts";
    StripSource(base);
  }

  lemma NormalizedSource(base: string)
    requires NoExtensionMarker(base) && '\\' !in base
    ensures Normalized(base + ".ts") == base
  {
    var t := base + ".ts";
    ReplaceCharAbsent(t, '\\', '/');
    FirstAtExtension(base, ".ts", ".d.ts");
    assert forall j: nat :: !OccursAt(t, ".d.ts", j) by {
      forall j: nat ensures !OccursAt(t, ".d.ts", j) {
        if j >= |base| {
          assert j + 5 > |t|;
        }
      }
    }
    NoOccurrence(t, ".d.ts");
    StripSource(base);
  }

  lemma StripSource(base: string)
    requires NoExtensionMarker(base)
    ensures ReplaceFirst(base + ".ts", ".ts", "") == base
  {
    var t := base + ".ts";
    FirstAtExtension(base, ".ts", ".ts");
    assert t[|base|..|base| + 3] == ".ts";
    FirstOccurrence(t, ".ts", |base|);
    assert t[..|base|] == base && t[|base| + 3..] == [];
  }

  lemma ReplaceCharAbsent(s: string, c: char, d: char)
    requires c !in s
    ensures ReplaceChar(s, c, d) == s
  {
  }

  /** Slash normalisation neither creates nor removes an occurrence of a slash-free pattern. */
  lemma ReplaceCharKeepsOccurrences(s: string, p: string, j: nat)
    requires '\\' !in p && '/' !in p
    ensures OccursAt(ReplaceChar(s, '\\', '/'), p, j) <==> OccursAt(s, p, j)
  {
    var t := ReplaceChar(s, '\\', '/');
    if j + |p| <= |s| {
      if OccursAt(t, p, j) {
        forall k | 0 <= k < |p| ensures s[j + k] == p[k] {
          assert t[j..j + |p|][k] == t[j + k];
        }
        assert s[j..j + |p|] == p;
      }
      if OccursAt(s, p, j) {
        forall k | 0 <= k < |p| ensures t[j + k] == p[k] {
          assert s[j..j + |p|][k] == s[j + k];
        }
        assert t[j..j + |p|] == p;
      }
    }
  }

  /** A path with no `.ts` in it only has its slashes normalised and, if needed, `./` added. */
  lemma {:induction false} NoExtensionUnchanged(relative: string)
    requires forall j: nat :: !OccursAt(relative, ".ts", j)
    ensures var n := ReplaceChar(relative, '\\', '/');
      RelativeImportPath(relative) == if StartsWith(n, ".") then n else "./" + n
  {
    var n := ReplaceChar(relative, '\\', '/');
    forall j: nat ensures !OccursAt(n, ".ts", j) && !OccursAt(n, ".d.ts", j) {
      ReplaceCharKeepsOccurrences(relative, ".ts", j);
      ReplaceCharKeepsOccurrences(relative, ".ts", j + 2);
    }
    assert ReplaceFirst(n, ".d.ts", ".ts") == n;
    assert Normalized(relative) == n;
  }

  /**
   * Only the first `.ts` is deleted, wherever it stands: a `.tsx` file loses
   * its `.ts` and keeps the `x`.
   */
  lemma TsxImport(stem: string)
    requires '.' !in stem && '\\' !in stem
    ensures RelativeImportPath(stem + ".tsx") == "./" + stem + "x"
  {
    var s := stem + ".tsx";
    ReplaceCharAbsent(s, '\\', '/');
    forall j: nat ensures !OccursAt(s, ".d.ts", j) {
      if j + 5 <= |s| {
        assert s[j..j + 5][0] == s[j];
        assert s[j] == '.' ==> j == |stem|;
      }
    }
    NoOccurrence(s, ".d.ts");
    assert s[|stem|..|stem| + 3] == ".ts";
    forall j: nat | j < |stem| ensures !OccursAt(s, ".ts", j) {
      assert s[j..j + 3][0] == s[j] == stem[j];
    }
    FirstOccurrence(s, ".ts", |stem|);
    assert s[..|stem|] + s[|stem| + 3..] == stem + "x";
    assert Normalized(s) == stem + "x";
    assert !StartsWith(stem + "x", ".") by {
      assert (stem + "x")[0] != '.';
    }
  }
}
