/**
 * The adapter's path prefixer: a root prefix that ends in '/', joined to
 * relative paths, to directory paths (which end in '/'), and cut off the
 * front of the keys the store returns.
 */
module PathPrefix {
  import opened Php

  /** A prefixer holds its prefix: empty, or ending in exactly one '/'. */
  datatype PathPrefixer = PathPrefixer(prefix: Str)
  {
    /** The key of a file: the prefix, then the path without its leading slashes. */
    function PrefixPath(path: Str): Str
    {
      prefix + TrimLeft(path, "/")
    }

    /** The key prefix of a directory: the prefixed path with one trailing '/', or "" for the root of no prefix. */
    function PrefixDirectoryPath(path: Str): Str
    {
      var prefixed := PrefixPath(TrimRight(path, "/"));
      if prefixed == [] || prefixed[|prefixed| - 1] == '/' then prefixed else prefixed + "/"
    }

    /** A key without the prefix: the bytes after the prefix's length, whatever they are. */
    function StripPrefix(path: Str): Str
    {
      SubstrFrom(path, |prefix|)
    }
  }

  /** The prefix with its trailing slashes replaced by one '/'; an empty (or all-slash) prefix stays empty. */
  function NewPrefixer(prefix: Str): PathPrefixer
  {
    var trimmed := TrimRight(prefix, "/");
    if trimmed == [] then PathPrefixer([]) else PathPrefixer(trimmed + "/")
  }

  /** The prefix is empty or ends in one '/' preceded by something other than '/'. */
  lemma {:induction false} NewPrefixerShape(prefix: Str)
    ensures var p := NewPrefixer(prefix).prefix;
      p == [] || (|p| >= 2 && p[|p| - 1] == '/' && p[|p| - 2] != '/')
    ensures NewPrefixer(prefix).prefix == [] <==> forall i :: 0 <= i < |prefix| ==> prefix[i] == '/'
  {
    TrimRightSpec(prefix, "/");
    var trimmed := TrimRight(prefix, "/");
    if trimmed != [] {
      assert trimmed[|trimmed| - 1] != '/';
      assert prefix[|trimmed| - 1] == trimmed[|trimmed| - 1];
    }
  }

  /** Stripping the prefix from a file key gives the path without its leading slashes. */
  lemma StripPrefixPath(p: PathPrefixer, path: Str)
    ensures p.StripPrefix(p.PrefixPath(path)) == TrimLeft(path, "/")
  {
    var key := p.PrefixPath(path);
    assert key[|p.prefix|..] == TrimLeft(path, "/");
  }

  /**
   * A directory key starts with the prefix and, unless it is empty, ends in
   * '/'; it is empty only when both the prefix and the trimmed path are.
   */
  lemma {:induction false} PrefixDirectoryPathShape(p: PathPrefixer, path: Str)
    ensures p.prefix <= p.PrefixDirectoryPath(path)
    ensures p.PrefixDirectoryPath(path) == [] || p.PrefixDirectoryPath(path)[|p.PrefixDirectoryPath(path)| - 1] == '/'
    ensures p.PrefixDirectoryPath(path) == [] <==> p.prefix == [] && TrimLeft(TrimRight(path, "/"), "/") == []
  {
    var prefixed := p.PrefixPath(TrimRight(path, "/"));
    assert p.prefix <= prefixed;
  }

  /** A directory's key is its file key with one '/' appended, when the path has no trailing '/'. */
  lemma {:induction false} DirectoryIsFileWithSlash(p: PathPrefixer, path: Str)
    requires path != [] && path[|path| - 1] != '/'
    requires TrimLeft(path, "/") != []
    ensures p.PrefixDirectoryPath(path) == p.PrefixPath(path) + "/"
  {
    assert TrimRight(path, "/") == path;
    TrimLeftSpec(path, "/");
    var t := TrimLeft(path, "/");
    assert t[|t| - 1] == path[|path| - 1];
    var prefixed := p.PrefixPath(path);
    assert prefixed[|prefixed| - 1] == t[|t| - 1];
  }
}

/** The prefixer on the adapter's own fixtures. */
module PathPrefixExamples {
  import opened Php
  import opened PathPrefix

  /** With prefix "test-prefix", the file "test.txt" is the key "test-prefix/test.txt". */
  lemma FileKeyExample()
    ensures NewPrefixer("test-prefix").PrefixPath("test.txt") == "test-prefix/test.txt"
  {
    var prefix: Str := "test-prefix";
    assert prefix[|prefix| - 1] == 'x';
    var path: Str := "test.txt";
    assert path[0] == 't';
  }

  /** With prefix "test-prefix", the directory "folder" is listed under "test-prefix/folder/". */
  lemma DirectoryKeyExample()
    ensures NewPrefixer("test-prefix").PrefixDirectoryPath("folder") == "test-prefix/folder/"
  {
    var prefix: Str := "test-prefix";
    assert prefix[|prefix| - 1] == 'x';
    var p := NewPrefixer(prefix);
    assert p.prefix == prefix + "/";
    var path: Str := "folder";
    assert TrimRight(path, "/") == path by { assert path[|path| - 1] == 'r'; }
    assert TrimLeft(path, "/") == path by { assert path[0] == 'f'; }
    var key := p.PrefixPath(path);
    assert key == prefix + "/" + path;
    assert key[|key| - 1] == 'r';
  }

  /** The key "test-prefix/folder/file1.txt" lists as "folder/file1.txt". */
  lemma StripExample()
    ensures NewPrefixer("test-prefix").StripPrefix("test-prefix/folder/file1.txt") == "folder/file1.txt"
  {
    var prefix: Str := "test-prefix";
    assert prefix[|prefix| - 1] == 'x';
  }
}
