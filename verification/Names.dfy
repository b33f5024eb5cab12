/** File names: the last element of a path, extensions, letter case, and names made of random digits. */
module Names {
  import opened RdpText

  function WithoutSlashes(path: string): (p: string)
    ensures |p| <= |path|
    ensures p == "" || p[|p| - 1] != '/'
  {
    if path != "" && path[|path| - 1] == '/' then WithoutSlashes(path[..|path| - 1]) else path
  }

  function LastPart(path: string): string {
    if path == "" || path[|path| - 1] == '/' then "" else LastPart(path[..|path| - 1]) + [path[|path| - 1]]
  }

  /** filepath.Base, for paths with and without separators. */
  function Base(path: string): string {
    if path == "" then "."
    else
      var p := WithoutSlashes(path);
      if p == "" then "/" else LastPart(p)
  }

  lemma {:induction false} LastPartIs(dir: string, name: string)
    requires '/' !in name && (dir == "" || dir[|dir| - 1] == '/')
    ensures LastPart(dir + name) == name
  {
    if name == "" {
      assert dir + name == dir;
    } else {
      var n := |name| - 1;
      assert name[n] in name;
      LastPartIs(dir, name[..n]);
      assert (dir + name)[..|dir + name| - 1] == dir + name[..n];
    }
  }

  /** A name without separators is its own base, and the base of every path that ends in it. */
  lemma BaseIs(dir: string, name: string)
    requires name != "" && '/' !in name
    ensures Base(name) == name && Base(dir + "/" + name) == name
  {
    LastPartIs("", name);
    assert "" + name == name;
    LastPartIs(dir + "/", name);
    assert name[|name| - 1] in name;
  }

  /** filepath.Ext. */
  function Ext(path: string): string {
    if path == "" || path[|path| - 1] == '/' then ""
    else if path[|path| - 1] == '.' then "."
    else
      var e := Ext(path[..|path| - 1]);
      if e == "" then "" else e + [path[|path| - 1]]
  }

  /** unicode.ToLower as far as the result is an ASCII letter; two letters outside ASCII have one. */
  function LowerChar(c: char): char {
    if 'A' <= c <= 'Z' then (c as int + 32) as char
    else if c == '\U{130}' then 'i'
    else if c == '\U{212A}' then 'k'
    else c
  }

  function Lower(s: string): (l: string)
    ensures |l| == |s| && forall i | 0 <= i < |s| :: l[i] == LowerChar(s[i])
  {
    if s == "" then "" else [LowerChar(s[0])] + Lower(s[1..])
  }

  predicate EndsWith(s: string, suffix: string) {
    |s| >= |suffix| && s[|s| - |suffix|..] == suffix
  }

  /** Generated names are digits in base sixteen. */
  predicate PlainName(s: string) {
    s != "" && forall c | c in s :: 'a' <= c <= 'f' || '0' <= c <= '9'
  }

  lemma {:induction false} ExtOfName(id: string, ext: string)
    requires ext != "" && ext[0] == '.' && forall k | 1 <= k < |ext| :: 'a' <= ext[k] <= 'z'
    ensures Ext(id + ext) == ext
  {
    var s, n := id + ext, |ext| - 1;
    if n == 0 {
      assert ext == ".";
    } else {
      ExtOfName(id, ext[..n]);
      assert s[..|s| - 1] == id + ext[..n];
    }
  }

  lemma LowerOfLower(s: string)
    requires forall c | c in s :: c == '.' || 'a' <= c <= 'z'
    ensures Lower(s) == s
  {
    assert forall i | 0 <= i < |s| :: s[i] in s;
  }

  /** A generated name with an extension: trimmed, without separators, and not a directory's. */
  lemma GeneratedName(id: string, ext: string)
    requires PlainName(id)
    requires |ext| >= 2 && ext[0] == '.' && forall k | 1 <= k < |ext| :: 'a' <= ext[k] <= 'z'
    ensures Trim(id + ext) == id + ext && Base(id + ext) == id + ext
  {
    hide Trim, Base;
    var name := id + ext;
    assert name[0] == id[0] && id[0] in id;
    assert name[|name| - 1] == ext[|ext| - 1];
    TrimMeaning(name);
    assert '/' !in name by {
      assert forall k | 0 <= k < |ext| :: ext[k] != '/';
    }
    BaseIs("", name);
  }

  /** The place of the first `key`, or the end. */
  function FirstOf(keys: seq<string>, key: string): (i: nat)
    ensures i <= |keys|
    ensures i < |keys| ==> keys[i] == key
    ensures forall j | 0 <= j < i :: keys[j] != key
  {
    if keys == [] || keys[0] == key then 0 else 1 + FirstOf(keys[1..], key)
  }
}
