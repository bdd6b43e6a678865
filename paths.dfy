/**
 * The two path utilities the plugin relies on: Node's POSIX `path.basename`
 * and the `.html` glob filter built with the bundler's `createFilter`, the latter
 * approximated by a `.html` suffix test.
 */
module Paths {

  const HtmlSuffix: string := ".html"

  predicate StartsWith(s: string, prefix: string) {
    prefix <= s
  }

  predicate EndsWith(s: string, suffix: string) {
    |suffix| <= |s| && s[|s| - |suffix|..] == suffix
  }

  /** The path with every trailing '/' removed, as `path.basename` does first. */
  function StripTrailingSlashes(p: string): (r: string)
    ensures r <= p
    ensures r == [] || r[|r| - 1] != '/'
    ensures forall i | |r| <= i < |p| :: p[i] == '/'
  {
    if |p| > 0 && p[|p| - 1] == '/' then StripTrailingSlashes(p[..|p| - 1]) else p
  }

  /** The text after the last '/' of p (all of p when it has none). */
  function AfterLastSlash(p: string): (r: string)
    ensures '/' !in r
    ensures |r| <= |p| && p[|p| - |r|..] == r
    ensures |r| < |p| ==> p[|p| - |r| - 1] == '/'
  {
    if |p| == 0 || p[|p| - 1] == '/' then [] else AfterLastSlash(p[..|p| - 1]) + [p[|p| - 1]]
  }

  /** POSIX `path.basename(p)`: the last segment, ignoring trailing separators. */
  function Basename(p: string): (r: string)
    ensures '/' !in r
    ensures var q := StripTrailingSlashes(p);
      EndsWith(q, r) && (|r| < |q| ==> q[|q| - |r| - 1] == '/')
  {
    AfterLastSlash(StripTrailingSlashes(p))
  }

  /** `isHtml`: the id is some stem followed by `.html`. */
  predicate IsHtml(id: string): (b: bool)
    ensures b <==> exists stem :: id == stem + HtmlSuffix
  {
    HtmlStem(id);
    EndsWith(id, HtmlSuffix)
  }

  lemma HtmlStem(id: string)
    ensures EndsWith(id, HtmlSuffix) ==> id == id[..|id| - |HtmlSuffix|] + HtmlSuffix
    ensures forall stem | id == stem + HtmlSuffix :: EndsWith(id, HtmlSuffix)
  {
    forall stem | id == stem + HtmlSuffix ensures EndsWith(id, HtmlSuffix) {
      assert id[|stem|..] == HtmlSuffix;
    }
  }

  /** A path without any separator is its own basename. */
  lemma {:induction false} BasenameOfSegment(p: string)
    requires '/' !in p
    ensures Basename(p) == p
  {
    assert StripTrailingSlashes(p) == p by {
      if |p| > 0 {
        assert p[|p| - 1] in p;
      }
    }
    AfterLastSlashOfSegment(p);
  }

  lemma {:induction false} AfterLastSlashOfSegment(p: string)
    requires '/' !in p
    ensures AfterLastSlash(p) == p
  {
    if |p| > 0 {
      var init, last := p[..|p| - 1], p[|p| - 1];
      assert p == init + [last];
      assert last != '/' && '/' !in init;
      AfterLastSlashOfSegment(init);
    }
  }

  /** The basename is the segment after the last separator of a directory path. */
  lemma {:induction false} BasenameOfJoin(dir: string, name: string)
    requires '/' !in name && name != []
    ensures Basename(dir + "/" + name) == name
  {
    var p := dir + "/" + name;
    assert StripTrailingSlashes(p) == p by {
      assert p[|p| - 1] == name[|name| - 1];
      assert name[|name| - 1] in name;
    }
    AfterLastSlashOfJoin(dir, name);
  }

  lemma {:induction false} AfterLastSlashOfJoin(dir: string, name: string)
    requires '/' !in name
    ensures AfterLastSlash(dir + "/" + name) == name
    decreases |name|
  {
    var p := dir + "/" + name;
    if name == [] {
      assert p[|p| - 1] == '/';
    } else {
      var init := name[..|name| - 1];
      assert '/' !in init by {
        forall i | 0 <= i < |init| ensures init[i] != '/' {
          assert name[i] in name;
        }
      }
      assert p[..|p| - 1] == dir + "/" + init;
      assert p[|p| - 1] == name[|name| - 1] && name[|name| - 1] in name;
      AfterLastSlashOfJoin(dir, init);
      assert init + [name[|name| - 1]] == name;
    }
  }
}
