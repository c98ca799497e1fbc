/**
  `create_slug`: lower-case the title, drop every character that is not a
  word character, whitespace or `-`, replace each run of `-` and whitespace
  by a single `-`, and keep at most the first 255 characters.

  Word characters are the ASCII ones (`[A-Za-z0-9_]`); whitespace is the
  full `str.isspace` set, as `\s` matches it.
 */
module Slugs {
  import opened Text

  const MaxSlugLength := 255

  predicate IsAsciiUpper(c: char) {
    'A' <= c <= 'Z'
  }

  /** The characters of the class `[-\s]`. */
  predicate IsSeparator(c: char) {
    c == '-' || IsSpace(c)
  }

  /** A character a slug may hold: a lower-case word character or `-`. */
  predicate IsSlugChar(c: char) {
    (IsWord(c) && !IsAsciiUpper(c)) || c == '-'
  }

  predicate AllSlugChars(s: string) {
    forall i :: 0 <= i < |s| ==> IsSlugChar(s[i])
  }

  predicate NoDoubleHyphen(s: string) {
    forall i :: 0 <= i < |s| - 1 ==> !(s[i] == '-' && s[i + 1] == '-')
  }

  function LowerChar(c: char): char {
    if IsAsciiUpper(c) then (c as int + 32) as char else c
  }

  /** `str.lower()` on ASCII letters; every other character is left as it is. */
  function Lower(s: string): (r: string)
    ensures |r| == |s|
    ensures forall i :: 0 <= i < |s| ==> !IsAsciiUpper(r[i])
    ensures forall i :: 0 <= i < |s| ==> IsWord(r[i]) == IsWord(s[i]) && IsSpace(r[i]) == IsSpace(s[i])
  {
    seq(|s|, i requires 0 <= i < |s| => LowerChar(s[i]))
  }

  /** `re.sub(r"[^\w\s-]", "", s)`: the word, whitespace and `-` characters, in order. */
  function KeepSlugChars(s: string): (r: string)
    ensures |r| <= |s|
    decreases |s|
  {
    if s == [] then []
    else if IsWord(s[0]) || IsSeparator(s[0]) then [s[0]] + KeepSlugChars(s[1..])
    else KeepSlugChars(s[1..])
  }

  /** What survives the filter is exactly what it lets through. */
  lemma {:induction false} KeepSlugCharsKeeps(s: string)
    ensures forall i :: 0 <= i < |KeepSlugChars(s)| ==>
              IsWord(KeepSlugChars(s)[i]) || IsSeparator(KeepSlugChars(s)[i])
    ensures (forall i :: 0 <= i < |s| ==> IsWord(s[i]) || IsSeparator(s[i])) ==> KeepSlugChars(s) == s
    ensures (forall i :: 0 <= i < |s| ==> !IsAsciiUpper(s[i])) ==>
              forall i :: 0 <= i < |KeepSlugChars(s)| ==> !IsAsciiUpper(KeepSlugChars(s)[i])
    decreases |s|
  {
    if s != [] {
      KeepSlugCharsKeeps(s[1..]);
    }
  }

  /** `re.sub(r"[-\s]+", "-", s)`: every maximal run of separators becomes one `-`. */
  function Collapse(s: string): string
    decreases |s|
  {
    if s == [] then []
    else
      var first := if IsSeparator(s[0]) then "-" else [s[0]];
      var rest := if IsSeparator(s[0]) then TrimLeft(s[1..], IsSeparator) else s[1..];
      first + Collapse(rest)
  }

  /** A collapsed text starts with `-` exactly when the original starts with a separator. */
  lemma {:induction false} CollapseStart(s: string)
    requires s != []
    ensures Collapse(s) != [] && (Collapse(s)[0] == '-' <==> IsSeparator(s[0]))
  {
  }

  /**
    Collapsing keeps the slug characters of a text made of slug characters and
    whitespace, removes all whitespace and leaves no two adjacent hyphens.
   */
  lemma {:induction false} CollapseShape(s: string)
    requires forall i :: 0 <= i < |s| ==> IsSlugChar(s[i]) || IsSpace(s[i])
    ensures AllSlugChars(Collapse(s)) && NoDoubleHyphen(Collapse(s))
    decreases |s|
  {
    if s != [] {
      var r := Collapse(s);
      if IsSeparator(s[0]) {
        var t := TrimLeft(s[1..], IsSeparator);
        TrimLeftRemovesPrefix(s[1..], IsSeparator);
        assert forall i :: 0 <= i < |t| ==> t[i] == s[1..][|s| - 1 - |t| + i];
        CollapseShape(t);
        if t != [] {
          CollapseStart(t);
        }
        assert r == "-" + Collapse(t);
      } else {
        CollapseShape(s[1..]);
        if |s| > 1 {
          CollapseStart(s[1..]);
        }
        assert r == [s[0]] + Collapse(s[1..]);
      }
    }
  }

  /** A text already in slug form is left alone by collapsing. */
  lemma {:induction false} CollapseFixed(s: string)
    requires AllSlugChars(s) && NoDoubleHyphen(s)
    ensures Collapse(s) == s
    decreases |s|
  {
    if s != [] {
      if s[0] == '-' {
        if |s| > 1 {
          assert s[1] != '-';
          assert TrimLeft(s[1..], IsSeparator) == s[1..];
        }
        CollapseFixed(s[1..]);
      } else {
        CollapseFixed(s[1..]);
      }
    }
  }

  /** `create_slug(title)`. */
  function Slug(title: string): (r: string)
    ensures |r| <= MaxSlugLength
  {
    var s := Collapse(KeepSlugChars(Lower(title)));
    if |s| <= MaxSlugLength then s else s[..MaxSlugLength]
  }

  /**
    A slug is at most 255 characters of lower-case word characters and `-`,
    so it holds no whitespace, and it never has two adjacent hyphens.
   */
  lemma SlugShape(title: string)
    ensures |Slug(title)| <= MaxSlugLength
    ensures AllSlugChars(Slug(title)) && NoDoubleHyphen(Slug(title))
    ensures forall i :: 0 <= i < |Slug(title)| ==> !IsSpace(Slug(title)[i])
  {
    var lowered := Lower(title);
    var kept := KeepSlugChars(lowered);
    KeepSlugCharsKeeps(lowered);
    CollapseShape(kept);
    var s := Collapse(kept);
    var r := Slug(title);
    assert r == s[..|r|];
  }

  /** Making a slug of a slug changes nothing. */
  lemma SlugIdempotent(title: string)
    ensures Slug(Slug(title)) == Slug(title)
  {
    var t := Slug(title);
    SlugShape(title);
    assert Lower(t) == t;
    KeepSlugCharsKeeps(t);
    assert KeepSlugChars(t) == t;
    CollapseFixed(t);
  }

  /** The example of the slug rules: `"Hello, World!"` becomes `"hello-world"`. */
  lemma SlugExample()
    ensures Slug("Hello, World!") == "hello-world"
  {
    LowerExample();
    KeepExample();
    CollapseExample();
  }

  lemma KeepExample()
    ensures KeepSlugChars("hello, world!") == "hello world"
  {
    var hello, world := "hello", "world";
    assert "hello, world!" == hello + [','] + ([' '] + world) + ['!'];
    KeepPunctuatedWords(hello, ',', [' '] + world, '!');
    assert hello + ([' '] + world) == "hello world";
  }

  lemma CollapseExample()
    ensures Collapse("hello world") == "hello-world"
  {
    var hello, world := "hello", "world";
    assert "hello world" == hello + ([' '] + world);
    CollapseSpacedWords(hello, world);
    assert hello + ("-" + world) == "hello-world";
  }

  lemma LowerExample()
    ensures Lower("Hello, World!") == "hello, world!"
  {
    var r := Lower("Hello, World!");
    assert r[0] == 'h' && r[7] == 'w';
    assert forall i :: 0 <= i < |r| ==> r[i] == "hello, world!"[i];
  }

  /** Punctuation after a word and after a spaced word is dropped, the rest kept. */
  lemma KeepPunctuatedWords(a: string, p: char, b: string, q: char)
    requires forall i :: 0 <= i < |a| ==> IsWord(a[i])
    requires forall i :: 0 <= i < |b| ==> IsWord(b[i]) || IsSeparator(b[i])
    requires !IsWord(p) && !IsSeparator(p) && !IsWord(q) && !IsSeparator(q)
    ensures KeepSlugChars(a + [p] + b + [q]) == a + b
  {
    KeepSlugCharsKeeps(a);
    KeepSlugCharsKeeps(b);
    assert KeepSlugChars(a) == a;
    assert KeepSlugChars(b) == b;
    assert KeepSlugChars([p]) == [] by {
      assert [p][1..] == [];
    }
    assert KeepSlugChars([q]) == [] by {
      assert [q][1..] == [];
    }
    KeepAppend(a, [p]);
    assert KeepSlugChars(a + [p]) == a;
    KeepAppend(a + [p], b);
    assert KeepSlugChars(a + [p] + b) == a + b;
    KeepAppend(a + [p] + b, [q]);
  }

  /** The filter works character by character. */
  lemma {:induction false} KeepAppend(a: string, b: string)
    ensures KeepSlugChars(a + b) == KeepSlugChars(a) + KeepSlugChars(b)
    decreases |a|
  {
    if a == [] {
      assert a + b == b;
    } else {
      assert (a + b)[0] == a[0] && (a + b)[1..] == a[1..] + b;
      KeepAppend(a[1..], b);
    }
  }

  /** Two words with one space between them collapse to the words joined by `-`. */
  lemma CollapseSpacedWords(a: string, b: string)
    requires forall i :: 0 <= i < |a| ==> !IsSeparator(a[i])
    requires b != [] && forall i :: 0 <= i < |b| ==> !IsSeparator(b[i])
    ensures Collapse(a + ([' '] + b)) == a + ("-" + b)
  {
    CollapseWordThen(a, [' '] + b);
    CollapseSpaceWord(b);
  }

  /** A space before a word becomes `-`. */
  lemma CollapseSpaceWord(b: string)
    requires b != [] && forall i :: 0 <= i < |b| ==> !IsSeparator(b[i])
    ensures Collapse([' '] + b) == "-" + b
  {
    assert ([' '] + b)[1..] == b;
    assert TrimLeft(b, IsSeparator) == b;
    CollapseWord(b);
  }

  /** A word without separators collapses to itself. */
  lemma CollapseWord(b: string)
    requires forall i :: 0 <= i < |b| ==> !IsSeparator(b[i])
    ensures Collapse(b) == b
  {
    CollapseWordThen(b, []);
    assert b + [] == b;
  }

  /** A prefix without separators passes through collapsing unchanged. */
  lemma {:induction false} CollapseWordThen(a: string, b: string)
    requires forall i :: 0 <= i < |a| ==> !IsSeparator(a[i])
    ensures Collapse(a + b) == a + Collapse(b)
    decreases |a|
  {
    if a == [] {
      assert a + b == b;
    } else {
      assert (a + b)[0] == a[0] && (a + b)[1..] == a[1..] + b;
      CollapseWordThen(a[1..], b);
    }
  }
}
