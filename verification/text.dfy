/** The string operations the handlers use: `lower`, `startswith`, `endswith`,
    `in` (substring) and `split(c)[-1]`. Strings are sequences of characters;
    case folding is ASCII-only. */
module Text {

  function LowerChar(c: char): char {
    if 'A' <= c <= 'Z' then (c as int + 32) as char else c
  }

  /** `s.lower()` on ASCII letters. */
  function Lower(s: string): (r: string)
    ensures |r| == |s|
    ensures forall i :: 0 <= i < |s| ==> r[i] == LowerChar(s[i])
  {
    seq(|s|, i requires 0 <= i < |s| => LowerChar(s[i]))
  }

  predicate StartsWith(s: string, prefix: string) {
    |prefix| <= |s| && s[..|prefix|] == prefix
  }

  predicate EndsWith(s: string, suffix: string) {
    |suffix| <= |s| && s[|s| - |suffix|..] == suffix
  }

  /** Python's `needle in hay` on strings: `needle` occurs somewhere in `hay`. */
  predicate Contains(hay: string, needle: string)
    decreases |hay|
  {
    StartsWith(hay, needle) || (hay != [] && Contains(hay[1..], needle))
  }

  /** `needle` occurs in `hay` starting at position `i`. */
  predicate OccursAt(hay: string, needle: string, i: nat) {
    i + |needle| <= |hay| && hay[i..i + |needle|] == needle
  }

  /** An occurrence at position `i` is found by `Contains`. */
  lemma {:induction false} OccursContains(hay: string, needle: string, i: nat)
    requires OccursAt(hay, needle, i)
    ensures Contains(hay, needle)
    decreases i
  {
    if i == 0 {
      assert StartsWith(hay, needle);
    } else {
      assert hay[1..][i - 1..i - 1 + |needle|] == hay[i..i + |needle|];
      OccursContains(hay[1..], needle, i - 1);
    }
  }

  /** What `Contains` finds is an occurrence at some position. */
  lemma {:induction false} ContainsOccurs(hay: string, needle: string) returns (i: nat)
    requires Contains(hay, needle)
    ensures OccursAt(hay, needle, i)
    decreases |hay|
  {
    if StartsWith(hay, needle) {
      i := 0;
    } else {
      var j := ContainsOccurs(hay[1..], needle);
      assert hay[1..][j..j + |needle|] == hay[j + 1..j + 1 + |needle|];
      i := j + 1;
    }
  }

  /** `Contains` agrees with the positional definition of a substring. */
  lemma ContainsAt(hay: string, needle: string)
    ensures Contains(hay, needle) <==> exists i: nat :: OccursAt(hay, needle, i)
  {
    if Contains(hay, needle) {
      var i := ContainsOccurs(hay, needle);
    }
    if i: nat :| OccursAt(hay, needle, i) {
      OccursContains(hay, needle, i);
    }
  }

  /** `s.split(c)[-1]`: the longest suffix of `s` free of `c`. */
  function AfterLast(s: string, c: char): (r: string)
    ensures c !in r
    ensures EndsWith(s, r)
    ensures |r| < |s| ==> s[|s| - |r| - 1] == c
    ensures c !in s ==> r == s
    decreases |s|
  {
    if s == [] then []
    else if s[|s| - 1] == c then []
    else AfterLast(s[..|s| - 1], c) + [s[|s| - 1]]
  }

  /** `key.split('/')[-1]`: the file name of a storage key. */
  function LastSegment(key: string): string {
    AfterLast(key, '/')
  }

  /** `name.split('.')[-1] if '.' in name else 'jpg'` (unified_lambda.py:2160). */
  function Extension(name: string): (r: string)
    ensures '.' !in r
    ensures '.' in name ==> EndsWith(name, "." + r)
    ensures '.' !in name ==> r == "jpg"
  {
    if '.' in name then
      var r := AfterLast(name, '.');
      assert name[|name| - |r| - 1..] == "." + r;
      r
    else "jpg"
  }

  /** `key.lower().endswith(('.jpg', '.jpeg', '.png', '.gif'))`. */
  predicate IsImageKey(key: string) {
    var l := Lower(key);
    EndsWith(l, ".jpg") || EndsWith(l, ".jpeg") || EndsWith(l, ".png") || EndsWith(l, ".gif")
  }

  /** The extensions, without the dot, that make a key an image key. */
  predicate IsImageExtension(ext: string) {
    ext == "jpg" || ext == "jpeg" || ext == "png" || ext == "gif"
  }

  lemma LowerConcat(a: string, b: string)
    ensures Lower(a + b) == Lower(a) + Lower(b)
  {
  }

  /** What lower-casing does: no upper-case ASCII letter is left, an upper-case letter
      becomes the letter 32 code points above it, every other character is kept, and
      lower-casing twice changes nothing more. */
  lemma LowerFolds(s: string)
    ensures forall i :: 0 <= i < |s| ==> !('A' <= Lower(s)[i] <= 'Z')
    ensures forall i :: 0 <= i < |s| && 'A' <= s[i] <= 'Z' ==> Lower(s)[i] as int == s[i] as int + 32
    ensures forall i :: 0 <= i < |s| && !('A' <= s[i] <= 'Z') ==> Lower(s)[i] == s[i]
    ensures Lower(Lower(s)) == Lower(s)
  {
  }

  /** When `tail` is dot-free, `stem + "." + tail` ends with a one-dot suffix exactly
      when that suffix is `"." + tail`. */
  lemma SuffixAfterDot(stem: string, tail: string, suffix: string)
    requires '.' !in tail
    requires |suffix| >= 1 && suffix[0] == '.' && '.' !in suffix[1..]
    ensures EndsWith(stem + "." + tail, suffix) <==> tail == suffix[1..]
  {
    var l := stem + "." + tail;
    if EndsWith(l, suffix) {
      if |suffix| > |tail| + 1 {
        SuffixChar(l, suffix, |suffix| - |tail| - 1);
        assert false;
      } else if |suffix| == |tail| + 1 {
        assert l[|l| - |suffix|..] == "." + tail;
      }
    }
  }

  lemma SuffixChar(s: string, suffix: string, j: nat)
    requires EndsWith(s, suffix) && j < |suffix|
    ensures suffix[j] == s[|s| - |suffix| + j]
    ensures j >= 1 ==> suffix[j] in suffix[1..]
  {
    if j >= 1 {
      assert suffix[1..][j - 1] == suffix[j];
    }
  }

  /** A key built as `stem + "." + ext` with a dot-free `ext` is an image key exactly when
      the lower-cased extension is jpg, jpeg, png or gif. */
  lemma ImageKeyByExtension(stem: string, ext: string)
    requires '.' !in ext
    ensures IsImageKey(stem + "." + ext) <==> IsImageExtension(Lower(ext))
  {
    LowerConcat(stem + ".", ext);
    LowerConcat(stem, ".");
    assert Lower(".") == ".";
    var low := Lower(ext);
    assert '.' !in low by {
      forall i | 0 <= i < |low| ensures low[i] != '.' {
        assert ext[i] != '.';
      }
    }
    assert Lower(stem + "." + ext) == Lower(stem) + "." + low;
    SuffixAfterDot(Lower(stem), low, ".jpg");
    SuffixAfterDot(Lower(stem), low, ".jpeg");
    SuffixAfterDot(Lower(stem), low, ".png");
    SuffixAfterDot(Lower(stem), low, ".gif");
  }
}
