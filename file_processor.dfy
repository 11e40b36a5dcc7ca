/**
 * The pure helpers of the document store's file processor
 * (`backend/rag/file_processor.py`): word chunking, and the extension test for
 * uploads. The set of allowed extensions is a parameter.
 */
module FileProcessor {
  import opened Wrappers
  import opened Strings

  /** The words of each group, in order, one after the other. */
  function Concat(groups: seq<seq<string>>): seq<string> {
    if groups == [] then [] else groups[0] + Concat(groups[1..])
  }

  /**
   * The slices `words[i:i+size]` for `i` in `range(0, len(words), size)`:
   * each holds between one and `size` words, all but the last exactly `size`,
   * and together they are the words in order.
   */
  function Groups(words: seq<string>, size: nat): (r: seq<seq<string>>)
    requires size > 0
    ensures forall i :: 0 <= i < |r| ==> 1 <= |r[i]| <= size
    ensures forall i :: 0 <= i < |r| - 1 ==> |r[i]| == size
    ensures Concat(r) == words
    ensures |r| == 0 <==> words == []
    decreases |words|
  {
    if words == [] then []
    else
      var m := if |words| < size then |words| else size;
      var rest := Groups(words[m..], size);
      assert ([words[..m]] + rest)[1..] == rest;
      assert words[..m] + words[m..] == words;
      [words[..m]] + rest
  }

  /** Every word of a group is one of the words. */
  lemma {:induction false} GroupMembers(words: seq<string>, size: nat, i: nat)
    requires size > 0 && i < |Groups(words, size)|
    ensures forall w :: w in Groups(words, size)[i] ==> w in words
    decreases |words|
  {
    var m := if |words| < size then |words| else size;
    var r := Groups(words, size);
    assert r[0] == words[..m];
    if i > 0 {
      GroupMembers(words[m..], size, i - 1);
      assert r[i] == Groups(words[m..], size)[i - 1];
    }
  }

  /**
   * There are ceil(n / size) groups for n words: the fewest whose capacity
   * holds all of them.
   */
  lemma {:induction false} GroupCount(words: seq<string>, size: nat)
    requires size > 0
    ensures |words| <= |Groups(words, size)| * size
    ensures |Groups(words, size)| > 0 ==> (|Groups(words, size)| - 1) * size < |words|
    decreases |words|
  {
    if words != [] {
      var m := if |words| < size then |words| else size;
      var n := |Groups(words[m..], size)|;
      GroupCount(words[m..], size);
      assert |Groups(words, size)| == n + 1;
      MulStep(n, size);
      if n > 0 {
        MulStep(n - 1, size);
      }
    }
  }

  lemma MulStep(k: nat, size: nat)
    ensures (k + 1) * size == k * size + size
  {
  }

  /** The `chunk_size` that `chunk_text` uses when its caller gives none. */
  const DefaultChunkSize: int := 1000

  /**
   * `chunk_text`: the whitespace-separated words, joined by single spaces in
   * runs of `chunkSize`. A zero size is the `ValueError` of `range` (`None`);
   * a negative size makes the range empty.
   */
  function ChunkText(text: string, chunkSize: int): (r: Option<seq<string>>)
    ensures r.None? <==> chunkSize == 0
    ensures chunkSize < 0 ==> r == Some([])
  {
    if chunkSize == 0 then None
    else if chunkSize < 0 then Some([])
    else
      var groups := Groups(Split(text), chunkSize);
      Some(seq(|groups|, i requires 0 <= i < |groups| => Join(groups[i], " ")))
  }

  /** Each chunk splits back into exactly its group of words. */
  lemma ChunkWords(text: string, chunkSize: int, i: int)
    requires chunkSize > 0
    requires 0 <= i < |ChunkText(text, chunkSize).value|
    ensures Split(ChunkText(text, chunkSize).value[i]) == Groups(Split(text), chunkSize)[i]
  {
    var words := Split(text);
    var g := Groups(words, chunkSize)[i];
    GroupMembers(words, chunkSize, i);
    assert forall j :: 0 <= j < |g| ==> g[j] in words;
    SplitJoin(g);
  }

  /**
   * Every chunk has between one and `chunkSize` words, and every chunk but
   * the last has exactly `chunkSize`.
   */
  lemma ChunkSizes(text: string, chunkSize: int, i: int)
    requires chunkSize > 0
    requires 0 <= i < |ChunkText(text, chunkSize).value|
    ensures 1 <= |Split(ChunkText(text, chunkSize).value[i])| <= chunkSize
    ensures i < |ChunkText(text, chunkSize).value| - 1 ==> |Split(ChunkText(text, chunkSize).value[i])| == chunkSize
  {
    ChunkWords(text, chunkSize, i);
  }

  /** The words of the chunks, in order. */
  function SplitAll(chunks: seq<string>): seq<string> {
    if chunks == [] then [] else Split(chunks[0]) + SplitAll(chunks[1..])
  }

  /**
   * Splitting the chunks in order gives back the words of the text, and there
   * are ceil(n / size) of them: the fewest whose capacity holds all n words.
   */
  lemma ChunksRejoin(text: string, chunkSize: int)
    requires chunkSize > 0
    ensures SplitAll(ChunkText(text, chunkSize).value) == Split(text)
    ensures |Split(text)| <= |ChunkText(text, chunkSize).value| * chunkSize
    ensures |ChunkText(text, chunkSize).value| > 0 ==>
      (|ChunkText(text, chunkSize).value| - 1) * chunkSize < |Split(text)|
  {
    var chunks := ChunkText(text, chunkSize).value;
    var groups := Groups(Split(text), chunkSize);
    forall i | 0 <= i < |chunks| ensures Split(chunks[i]) == groups[i] {
      ChunkWords(text, chunkSize, i);
    }
    SplitAllGroups(chunks, groups);
    GroupCount(Split(text), chunkSize);
  }

  lemma {:induction false} SplitAllGroups(chunks: seq<string>, groups: seq<seq<string>>)
    requires |chunks| == |groups|
    requires forall i :: 0 <= i < |chunks| ==> Split(chunks[i]) == groups[i]
    ensures SplitAll(chunks) == Concat(groups)
    decreases |chunks|
  {
    if chunks != [] {
      SplitAllGroups(chunks[1..], groups[1..]);
    }
  }

  /** Text that is empty or all whitespace gives no chunks, for any non-zero size. */
  lemma BlankTextNoChunks(text: string, chunkSize: int)
    requires IsBlank(text) && chunkSize != 0
    ensures ChunkText(text, chunkSize) == Some([])
  {
    TrimStartDrops(text);
    var t := TrimStart(text);
    if t != [] {
      assert false;
    }
    assert Split(text) == [];
    if chunkSize > 0 {
      assert |Groups(Split(text), chunkSize)| == 0;
      assert |ChunkText(text, chunkSize).value| == 0;
    }
  }

  /** The text after the last '/' of `s`. */
  function AfterSlash(s: string): (r: string)
    ensures |r| <= |s| && r == s[|s| - |r|..]
    ensures forall i :: 0 <= i < |r| ==> r[i] != '/'
    ensures |r| == |s| || s[|s| - |r| - 1] == '/'
  {
    if s == [] || s[|s| - 1] == '/' then [] else AfterSlash(s[..|s| - 1]) + [s[|s| - 1]]
  }

  /**
   * `Path(s).name` on a POSIX path: the last component that is neither empty
   * nor ".", so trailing slashes and "." components are ignored.
   */
  function Name(s: string): (r: string)
    ensures forall i :: 0 <= i < |r| ==> r[i] != '/'
    decreases |s|
  {
    var c := AfterSlash(s);
    if c != [] && c != "." then c
    else if |c| == |s| then []
    else Name(s[..|s| - |c| - 1])
  }

  /**
   * The components of `t`, split at '/', are all empty or ".": a path, or the
   * rest of one, that names nothing.
   */
  predicate Unnamed(t: string) {
    forall j :: 0 <= j < |t| ==> Separating(t, j)
  }

  /** `t[j]` is a '/', or a "." component on its own. */
  predicate Separating(t: string, j: nat)
    requires j < |t|
  {
    t[j] == '/' || (t[j] == '.' && (j == 0 || t[j - 1] == '/') && (j + 1 == |t| || t[j + 1] == '/'))
  }

  /**
   * `r` is the component of `s` at `k`: it starts `s` or follows a '/', it
   * ends `s` or is followed by one, and every component after it is empty or ".".
   */
  predicate NamedAt(s: string, k: nat, r: string) {
    && k + |r| <= |s| && s[k..k + |r|] == r
    && (k == 0 || s[k - 1] == '/')
    && (k + |r| == |s| || s[k + |r|] == '/')
    && Unnamed(s[k + |r|..])
  }

  /**
   * `Name(s)` is empty exactly when no component of `s` is named; otherwise it
   * is a whole component, neither "." nor empty, and every component after it
   * is empty or ".".
   */
  lemma {:induction false} NameIsLastComponent(s: string)
    ensures Name(s) == [] <==> Unnamed(s)
    ensures Name(s) != [] ==> Name(s) != "." && exists k: nat :: NamedAt(s, k, Name(s))
    decreases |s|
  {
    var c := AfterSlash(s);
    var k := |s| - |c|;
    assert s[k..] == c;
    if c != [] && c != "." {
      NamedNotUnnamed(s, k, c);
      assert NamedAt(s, k, c);
    } else if |c| == |s| {
      assert s == c;
    } else {
      var s' := s[..k - 1];
      assert s == s' + "/" + c;
      NameIsLastComponent(s');
      UnnamedExtend(s', c);
      UnnamedExtendBack(s', c);
      if Name(s') != [] {
        var j: nat :| NamedAt(s', j, Name(s'));
        NamedAtExtend(s', j, Name(s'), c);
      }
    }
  }

  /** A component named at `k` stays named at `k` when an empty or "." component follows. */
  lemma NamedAtExtend(s': string, k: nat, r: string, c: string)
    requires c == [] || c == "."
    requires NamedAt(s', k, r)
    ensures NamedAt(s' + "/" + c, k, r)
  {
    var s := s' + "/" + c;
    UnnamedExtend(s'[k + |r|..], c);
    assert s[k..k + |r|] == r;
    assert s[k + |r|..] == s'[k + |r|..] + "/" + c;
  }

  /** A final component other than empty and "." is named. */
  lemma NamedNotUnnamed(s: string, k: nat, c: string)
    requires k <= |s| && s[k..] == c && c != [] && c != "."
    requires forall i :: 0 <= i < |c| ==> c[i] != '/'
    ensures !Unnamed(s)
  {
    assert s[k] == c[0];
    if |c| == 1 {
      assert c == [c[0]];
    } else {
      assert s[k + 1] == c[1];
    }
    assert !Separating(s, k);
  }

  /** Adding an empty or "." component keeps a path unnamed. */
  lemma UnnamedExtend(t: string, c: string)
    requires c == [] || c == "."
    ensures Unnamed(t) ==> Unnamed(t + "/" + c)
  {
    var u := t + "/" + c;
    if Unnamed(t) {
      forall j | 0 <= j < |u| ensures Separating(u, j) {
        if j < |t| {
          assert u[j] == t[j] && Separating(t, j);
          if j + 1 < |t| { assert u[j + 1] == t[j + 1]; } else { assert u[j + 1] == '/'; }
          if j > 0 { assert u[j - 1] == t[j - 1]; }
        } else if j == |t| {
          assert u[j] == '/';
        } else {
          assert u[j] == '.' && u[j - 1] == '/' && j + 1 == |u|;
        }
      }
    }
  }

  /** A path that is unnamed with a component added was unnamed before. */
  lemma UnnamedExtendBack(t: string, c: string)
    ensures Unnamed(t + "/" + c) ==> Unnamed(t)
  {
    var u := t + "/" + c;
    if Unnamed(u) {
      forall j | 0 <= j < |t| ensures Separating(t, j) {
        assert u[j] == t[j] && Separating(u, j);
        if j + 1 < |t| { assert u[j + 1] == t[j + 1]; } else { assert u[j + 1] == '/'; }
        if j > 0 { assert u[j - 1] == t[j - 1]; }
      }
    }
  }

  /** `name.rfind('.')`: the index of the last dot, or -1. */
  function LastDot(name: string): (i: int)
    ensures -1 <= i < |name|
    ensures i >= 0 ==> name[i] == '.'
    ensures forall j :: i < j < |name| ==> name[j] != '.'
  {
    if name == [] then -1
    else if name[|name| - 1] == '.' then |name| - 1
    else LastDot(name[..|name| - 1])
  }

  /**
   * `PurePath.suffix` of a name: from the last dot on, when that dot is
   * neither the first nor the last character; otherwise empty.
   */
  function Suffix(name: string): (r: string)
    ensures r != [] ==> 2 <= |r| < |name| && r == name[|name| - |r|..] && r[0] == '.'
    ensures forall j :: 0 < j < |r| ==> r[j] != '.'
    ensures forall i :: 0 < i < |name| - 1 && name[i] == '.' && (forall j :: i < j < |name| ==> name[j] != '.') ==>
      r == name[i..]
  {
    var i := LastDot(name);
    if 0 < i < |name| - 1 then name[i..] else []
  }

  /** `allowed_file`: the lower-cased suffix of the file's name is one of the allowed extensions. */
  predicate AllowedFile(filename: string, allowed: set<string>) {
    Lower(Suffix(Name(filename))) in allowed
  }

  /** A name whose stem has no slash is tested on its final extension alone, in any case. */
  lemma {:induction false} FinalExtension(stem: string, ext: string, allowed: set<string>)
    requires stem != [] && forall i :: 0 <= i < |stem| ==> stem[i] != '/'
    requires ext != [] && forall i :: 0 <= i < |ext| ==> ext[i] != '/' && ext[i] != '.'
    ensures AllowedFile(stem + "." + ext, allowed) <==> Lower("." + ext) in allowed
  {
    var s := stem + "." + ext;
    assert forall i :: 0 <= i < |s| ==> s[i] != '/' by {
      forall i | 0 <= i < |s| ensures s[i] != '/' {
        if i < |stem| { assert s[i] == stem[i]; }
        else if i > |stem| { assert s[i] == ext[i - |stem| - 1]; }
      }
    }
    NameOfComponent(s);
    NoDotLast(stem, ext);
    assert Suffix(s) == s[|stem|..];
    assert s[|stem|..] == "." + ext;
  }

  lemma NameOfComponent(s: string)
    requires |s| >= 2 && forall i :: 0 <= i < |s| ==> s[i] != '/'
    ensures Name(s) == s
  {
    NoSlashComponent(s);
  }

  lemma {:induction false} NoSlashComponent(s: string)
    requires forall i :: 0 <= i < |s| ==> s[i] != '/'
    ensures AfterSlash(s) == s
  {
    var r := AfterSlash(s);
    if |r| < |s| {
      assert false;
    }
  }

  lemma {:induction false} NoDotLast(stem: string, ext: string)
    requires forall i :: 0 <= i < |ext| ==> ext[i] != '.'
    ensures LastDot(stem + "." + ext) == |stem|
    decreases |ext|
  {
    var s := stem + "." + ext;
    if ext == [] {
      assert s[|s| - 1] == '.';
    } else {
      var shorter := ext[..|ext| - 1];
      assert s[..|s| - 1] == stem + "." + shorter;
      NoDotLast(stem, shorter);
    }
  }

  /**
   * Only the final extension counts: "name.pdf.exe" is judged by ".exe"
   * whatever the inner extension is.
   */
  lemma DoubleExtension(stem: string, inner: string, ext: string, allowed: set<string>)
    requires stem != [] && forall i :: 0 <= i < |stem| ==> stem[i] != '/'
    requires forall i :: 0 <= i < |inner| ==> inner[i] != '/'
    requires ext != [] && forall i :: 0 <= i < |ext| ==> ext[i] != '/' && ext[i] != '.'
    ensures AllowedFile(stem + "." + inner + "." + ext, allowed) <==> Lower("." + ext) in allowed
  {
    var s := stem + "." + inner;
    assert forall i :: 0 <= i < |s| ==> s[i] != '/' by {
      forall i | 0 <= i < |s| ensures s[i] != '/' {
        if i < |stem| { assert s[i] == stem[i]; }
        else if i > |stem| { assert s[i] == inner[i - |stem| - 1]; }
      }
    }
    FinalExtension(s, ext, allowed);
  }

  /** The extension is compared in lower case: extensions that agree in lower case are treated alike. */
  lemma {:induction false} ExtensionCaseInsensitive(stem: string, ext: string, ext': string, allowed: set<string>)
    requires stem != [] && forall i :: 0 <= i < |stem| ==> stem[i] != '/'
    requires ext != [] && forall i :: 0 <= i < |ext| ==> ext[i] != '/' && ext[i] != '.'
    requires ext' != [] && forall i :: 0 <= i < |ext'| ==> ext'[i] != '/' && ext'[i] != '.'
    requires Lower(ext) == Lower(ext')
    ensures AllowedFile(stem + "." + ext, allowed) <==> AllowedFile(stem + "." + ext', allowed)
  {
    FinalExtension(stem, ext, allowed);
    FinalExtension(stem, ext', allowed);
    LowerDotted(ext, ext');
  }

  lemma LowerDotted(ext: string, ext': string)
    requires Lower(ext) == Lower(ext')
    ensures Lower("." + ext) == Lower("." + ext')
  {
    var a, b := Lower("." + ext), Lower("." + ext');
    assert |a| == |b|;
    forall i | 0 <= i < |a| ensures a[i] == b[i] {
      if i > 0 {
        assert a[i] == LowerChar(ext[i - 1]) == Lower(ext)[i - 1];
        assert b[i] == LowerChar(ext'[i - 1]) == Lower(ext')[i - 1];
      }
    }
  }

  /**
   * A hidden file such as ".pdf", whose only dot is its first character, has
   * no suffix, so it is allowed only when the empty extension is.
   */
  lemma DotFileHasNoSuffix(ext: string, allowed: set<string>)
    requires forall i :: 0 <= i < |ext| ==> ext[i] != '/' && ext[i] != '.'
    ensures Suffix("." + ext) == []
    ensures AllowedFile("." + ext, allowed) <==> "" in allowed
  {
    var s := "." + ext;
    NoDotLast([], ext);
    assert [] + "." + ext == s;
    if ext != [] {
      assert forall i :: 0 <= i < |s| ==> s[i] != '/' by {
        forall i | 0 <= i < |s| ensures s[i] != '/' {
          if i > 0 { assert s[i] == ext[i - 1]; }
        }
      }
      NameOfComponent(s);
    } else {
      assert AfterSlash(s) == s[..0] + [s[0]];
      assert Name(s) == [];
    }
  }

  /**
   * Directories in front of a file name do not matter: "dir/file" is judged
   * as "file" is.
   */
  lemma DirectoryIgnored(dir: string, file: string, allowed: set<string>)
    requires file != [] && file != "."
    requires forall i :: 0 <= i < |file| ==> file[i] != '/'
    ensures AllowedFile(dir + "/" + file, allowed) <==> AllowedFile(file, allowed)
  {
    NoSlashComponent(file);
    AfterSlashOfPath(dir, file);
  }

  lemma {:induction false} AfterSlashOfPath(dir: string, file: string)
    requires forall i :: 0 <= i < |file| ==> file[i] != '/'
    ensures AfterSlash(dir + "/" + file) == file
    decreases |file|
  {
    var s := dir + "/" + file;
    if file == [] {
      assert s[|s| - 1] == '/';
    } else {
      var shorter := file[..|file| - 1];
      assert s[..|s| - 1] == dir + "/" + shorter;
      AfterSlashOfPath(dir, shorter);
      assert file == shorter + [file[|file| - 1]];
    }
  }

  /** In a directory too, only the final extension counts, in any case. */
  lemma FinalExtensionInDirectory(dir: string, stem: string, ext: string, allowed: set<string>)
    requires stem != [] && forall i :: 0 <= i < |stem| ==> stem[i] != '/'
    requires ext != [] && forall i :: 0 <= i < |ext| ==> ext[i] != '/' && ext[i] != '.'
    ensures AllowedFile(dir + "/" + stem + "." + ext, allowed) <==> Lower("." + ext) in allowed
  {
    var file := stem + "." + ext;
    assert forall i :: 0 <= i < |file| ==> file[i] != '/' by {
      forall i | 0 <= i < |file| ensures file[i] != '/' {
        if i < |stem| { assert file[i] == stem[i]; }
        else if i > |stem| { assert file[i] == ext[i - |stem| - 1]; }
      }
    }
    assert dir + "/" + stem + "." + ext == dir + "/" + file;
    DirectoryIgnored(dir, file, allowed);
    FinalExtension(stem, ext, allowed);
  }
}
