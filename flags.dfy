/** `AccessFlags`: the 32-bit modifier set and its rendering (`Display for
    AccessFlags`). */
module Flags {

  type AccessFlags = bv32

  const ACC_PUBLIC: AccessFlags := 0x1
  const ACC_PRIVATE: AccessFlags := 0x2
  const ACC_PROTECTED: AccessFlags := 0x4
  const ACC_STATIC: AccessFlags := 0x8
  const ACC_FINAL: AccessFlags := 0x10
  const ACC_SYNCHRONIZED: AccessFlags := 0x20
  /** Shared with `ACC_BRIDGE`: volatile on a field, bridge on a method. */
  const ACC_VOLATILE: AccessFlags := 0x40
  const ACC_BRIDGE: AccessFlags := 0x40
  /** Shared with `ACC_VARARGS`: transient on a field, varargs on a method. */
  const ACC_TRANSIENT: AccessFlags := 0x80
  const ACC_VARARGS: AccessFlags := 0x80
  const ACC_NATIVE: AccessFlags := 0x100
  const ACC_INTERFACE: AccessFlags := 0x200
  const ACC_ABSTRACT: AccessFlags := 0x400
  const ACC_STRICT: AccessFlags := 0x800
  const ACC_SYNTHETIC: AccessFlags := 0x1000
  const ACC_ANNOTATION: AccessFlags := 0x2000
  const ACC_ENUM: AccessFlags := 0x4000
  const ACC_CONSTRUCTOR: AccessFlags := 0x10000
  const ACC_DECLARED_SYNCHRONIZED: AccessFlags := 0x20000

  /** `contains`: every bit of `other` is set in `flags`, so that adding
      `other` to `flags` changes nothing. */
  predicate Contains(flags: AccessFlags, other: AccessFlags): (b: bool)
    ensures b <==> flags | other == flags
  {
    flags & other == other
  }

  /** The number of flag tests the renderer makes. */
  const TestCount: nat := 18

  /** The `i`-th flag test of the renderer, in the order it makes them, with
      the keyword it contributes. */
  function Test(i: nat): (AccessFlags, string)
    requires i < TestCount
  {
    match i
    case 0 => (ACC_PUBLIC, "public")
    case 1 => (ACC_PRIVATE, "private")
    case 2 => (ACC_PROTECTED, "protected")
    case 3 => (ACC_STATIC, "static")
    case 4 => (ACC_FINAL, "final")
    case 5 => (ACC_SYNCHRONIZED, "synchronized")
    case 6 => (ACC_VOLATILE, "volatile")
    case 7 => (ACC_BRIDGE, "bridge")
    case 8 => (ACC_TRANSIENT, "transient")
    case 9 => (ACC_VARARGS, "varargs")
    case 10 => (ACC_NATIVE, "native")
    case 11 => (ACC_ABSTRACT, "abstract")
    case 12 => (ACC_INTERFACE, "interface")
    case 13 => (ACC_STRICT, "strict")
    case 14 => (ACC_SYNTHETIC, "synthetic")
    case 15 => (ACC_ENUM, "enum")
    case 16 => (ACC_CONSTRUCTOR, "constructor")
    case _ => (ACC_DECLARED_SYNCHRONIZED, "synchronized")
  }

  /** The union of the bits the renderer tests. */
  const RenderedMask: AccessFlags := 0x3_5FFF

  /** The keywords of the first `n` table entries whose flag is contained
      in `flags`, in table order. */
  function KeywordsUpTo(flags: AccessFlags, n: nat): seq<string>
    requires n <= TestCount
  {
    if n == 0 then []
    else KeywordsUpTo(flags, n - 1) + Contribution(flags, n - 1)
  }

  /** The keyword test `i` contributes: its word when its flag is set. */
  function Contribution(flags: AccessFlags, i: nat): (r: seq<string>)
    requires i < TestCount
    ensures Contains(flags, Test(i).0) ==> r == [Test(i).1]
    ensures !Contains(flags, Test(i).0) ==> r == []
  {
    if Contains(flags, Test(i).0) then [Test(i).1] else []
  }

  /** The keywords of `flags`, in the renderer's fixed order. */
  function Keywords(flags: AccessFlags): seq<string>
  {
    KeywordsUpTo(flags, TestCount)
  }

  /** Words separated by single spaces. */
  function Join(words: seq<string>): string
  {
    if |words| == 0 then ""
    else if |words| == 1 then words[0]
    else Join(words[..|words| - 1]) + " " + words[|words| - 1]
  }

  /** The rendering of `flags`: its keywords joined by single spaces. */
  function Rendered(flags: AccessFlags): string
  {
    Join(Keywords(flags))
  }

  /** Each word followed by one space: what the pushes build before the trim. */
  function Spaced(words: seq<string>): string
  {
    if words == [] then "" else Spaced(words[..|words| - 1]) + words[|words| - 1] + " "
  }

  // ---------------------------------------------------------------------
  // `str::trim`

  /** Unicode White_Space, the set `char::is_whitespace` tests. */
  predicate IsWhitespace(c: char)
  {
    var n := c as int;
    n == 0x20 || 0x09 <= n <= 0x0D || n == 0x85 || n == 0xA0 || n == 0x1680 ||
    0x2000 <= n <= 0x200A || n == 0x2028 || n == 0x2029 || n == 0x202F || n == 0x205F || n == 0x3000
  }

  /** `trim_start`: drops the leading whitespace, and only that. */
  function TrimStart(s: string): (r: string)
    ensures r == [] || !IsWhitespace(r[0])
    ensures |r| <= |s| && r == s[|s| - |r|..]
    ensures forall i :: 0 <= i < |s| - |r| ==> IsWhitespace(s[i])
  {
    if s != [] && IsWhitespace(s[0]) then TrimStart(s[1..]) else s
  }

  /** `trim_end`: drops the trailing whitespace, and only that. */
  function TrimEnd(s: string): (r: string)
    ensures r <= s
    ensures r == [] || !IsWhitespace(r[|r| - 1])
    ensures forall i :: |r| <= i < |s| ==> IsWhitespace(s[i])
  {
    if s != [] && IsWhitespace(s[|s| - 1]) then TrimEnd(s[..|s| - 1]) else s
  }

  /** `str::trim`: leading and trailing whitespace removed; what is left
      neither starts nor ends with whitespace (see `TrimIsMiddle`). */
  function Trim(s: string): (r: string)
    ensures |r| <= |s|
    ensures r == [] || (!IsWhitespace(r[0]) && !IsWhitespace(r[|r| - 1]))
  {
    TrimEnd(TrimStart(s))
  }

  /** The trim keeps a run of `s` starting at `k`, with only whitespace
      before and after it. */
  lemma TrimIsMiddle(s: string) returns (k: nat)
    ensures k + |Trim(s)| <= |s| && Trim(s) == s[k..k + |Trim(s)|]
    ensures forall i :: 0 <= i < k ==> IsWhitespace(s[i])
    ensures forall i :: k + |Trim(s)| <= i < |s| ==> IsWhitespace(s[i])
  {
    k := MiddleOf(s, TrimStart(s), Trim(s));
  }

  /** A suffix `u` of `s` after whitespace, and a prefix `r` of `u` before
      whitespace: `r` is a run of `s` with only whitespace around it. */
  lemma MiddleOf(s: string, u: string, r: string) returns (k: nat)
    requires |u| <= |s| && u == s[|s| - |u|..] && forall i :: 0 <= i < |s| - |u| ==> IsWhitespace(s[i])
    requires r <= u && forall i :: |r| <= i < |u| ==> IsWhitespace(u[i])
    ensures k + |r| <= |s| && r == s[k..k + |r|]
    ensures forall i :: 0 <= i < k ==> IsWhitespace(s[i])
    ensures forall i :: k + |r| <= i < |s| ==> IsWhitespace(s[i])
  {
    k := |s| - |u|;
    assert r == u[..|r|];
    forall i | k + |r| <= i < |s| ensures IsWhitespace(s[i]) {
      assert s[i] == u[i - k];
    }
  }

  // ---------------------------------------------------------------------
  // The renderer

  /** `text` when `flags` contains `bit`, and nothing otherwise: one
      conditional `push_str`. */
  function IfSet(flags: AccessFlags, bit: AccessFlags, text: string): (r: string)
    ensures Contains(flags, bit) ==> r == text
    ensures !Contains(flags, bit) ==> r == []
  {
    if Contains(flags, bit) then text else ""
  }

  /** `out` holds what the first `k` tests push: their keywords, each
      followed by a space. */
  predicate PushedUpTo(flags: AccessFlags, k: nat, out: string)
    requires k <= TestCount
  {
    out == Spaced(KeywordsUpTo(flags, k))
  }

  /** One spaced test of the table, pushed onto `out`, extends the keyword
      prefix by that test's keyword (when its flag is set). */
  lemma PushStep(flags: AccessFlags, k: nat, out: string, bit: AccessFlags, word: string)
    requires k < TestCount - 1 && Test(k) == (bit, word)
    requires PushedUpTo(flags, k, out)
    ensures PushedUpTo(flags, k + 1, out + IfSet(flags, bit, word + " "))
  {
    var ws := KeywordsUpTo(flags, k);
    if Contains(flags, bit) {
      assert (ws + [Test(k).1])[..|ws|] == ws;
    } else {
      assert ws + [] == ws;
    }
  }

  /** `Display for AccessFlags`: one test per flag in a fixed order, each
      pushing its keyword and a space (the last one, declared-synchronized,
      pushes "synchronized" without a space), then the result is trimmed.
      The annotation bit is never looked at. */
  method Render(flags: AccessFlags) returns (s: string)
    ensures s == Rendered(flags)
  {
    var out := "";
    PushStep(flags, 0, out, ACC_PUBLIC, "public");
    out := out + IfSet(flags, ACC_PUBLIC, "public" + " ");
    PushStep(flags, 1, out, ACC_PRIVATE, "private");
    out := out + IfSet(flags, ACC_PRIVATE, "private" + " ");
    PushStep(flags, 2, out, ACC_PROTECTED, "protected");
    out := out + IfSet(flags, ACC_PROTECTED, "protected" + " ");
    PushStep(flags, 3, out, ACC_STATIC, "static");
    out := out + IfSet(flags, ACC_STATIC, "static" + " ");
    PushStep(flags, 4, out, ACC_FINAL, "final");
    out := out + IfSet(flags, ACC_FINAL, "final" + " ");
    PushStep(flags, 5, out, ACC_SYNCHRONIZED, "synchronized");
    out := out + IfSet(flags, ACC_SYNCHRONIZED, "synchronized" + " ");
    PushStep(flags, 6, out, ACC_VOLATILE, "volatile");
    out := out + IfSet(flags, ACC_VOLATILE, "volatile" + " ");
    PushStep(flags, 7, out, ACC_BRIDGE, "bridge");
    out := out + IfSet(flags, ACC_BRIDGE, "bridge" + " ");
    PushStep(flags, 8, out, ACC_TRANSIENT, "transient");
    out := out + IfSet(flags, ACC_TRANSIENT, "transient" + " ");
    PushStep(flags, 9, out, ACC_VARARGS, "varargs");
    out := out + IfSet(flags, ACC_VARARGS, "varargs" + " ");
    PushStep(flags, 10, out, ACC_NATIVE, "native");
    out := out + IfSet(flags, ACC_NATIVE, "native" + " ");
    PushStep(flags, 11, out, ACC_ABSTRACT, "abstract");
    out := out + IfSet(flags, ACC_ABSTRACT, "abstract" + " ");
    PushStep(flags, 12, out, ACC_INTERFACE, "interface");
    out := out + IfSet(flags, ACC_INTERFACE, "interface" + " ");
    PushStep(flags, 13, out, ACC_STRICT, "strict");
    out := out + IfSet(flags, ACC_STRICT, "strict" + " ");
    PushStep(flags, 14, out, ACC_SYNTHETIC, "synthetic");
    out := out + IfSet(flags, ACC_SYNTHETIC, "synthetic" + " ");
    PushStep(flags, 15, out, ACC_ENUM, "enum");
    out := out + IfSet(flags, ACC_ENUM, "enum" + " ");
    PushStep(flags, 16, out, ACC_CONSTRUCTOR, "constructor");
    out := out + IfSet(flags, ACC_CONSTRUCTOR, "constructor" + " ");
    ghost var spaced := out;
    out := out + IfSet(flags, ACC_DECLARED_SYNCHRONIZED, "synchronized");
    s := Trim(out);
    TrimOfPushed(flags, spaced);
  }

  // ---------------------------------------------------------------------
  // Lemmas

  predicate IsLetter(c: char) { 'a' <= c <= 'z' }

  /** A keyword: a non-empty word that begins and ends with a lower-case
      letter, so trimming never eats into it. */
  predicate IsKeyword(w: string)
  {
    w != [] && IsLetter(w[0]) && IsLetter(w[|w| - 1])
  }

  predicate AllKeywords(words: seq<string>)
  {
    forall i :: 0 <= i < |words| ==> IsKeyword(words[i])
  }

  lemma TestKeyword(i: nat)
    requires i < TestCount
    ensures IsKeyword(Test(i).1)
  {
  }

  /** Every keyword produced comes from a table entry whose flag is set. */
  lemma {:induction false} KeywordsFromTable(flags: AccessFlags, n: nat)
    requires n <= TestCount
    ensures forall w :: w in KeywordsUpTo(flags, n) ==>
              exists i :: 0 <= i < n && Test(i).1 == w && Contains(flags, Test(i).0)
  {
    if n > 0 {
      KeywordsFromTable(flags, n - 1);
    }
  }

  lemma KeywordsUpToAreKeywords(flags: AccessFlags, n: nat)
    requires n <= TestCount
    ensures AllKeywords(KeywordsUpTo(flags, n))
  {
    KeywordsFromTable(flags, n);
    var ws := KeywordsUpTo(flags, n);
    forall i | 0 <= i < |ws| ensures IsKeyword(ws[i]) {
      assert ws[i] in ws;
      var j :| 0 <= j < n && Test(j).1 == ws[i] && Contains(flags, Test(j).0);
      TestKeyword(j);
    }
  }

  /** Two words join around one space. */
  lemma JoinPair(a: string, b: string)
    ensures Join([a, b]) == a + " " + b
  {
    assert [a, b][..1] == [a];
  }

  /** Three words join around two spaces. */
  lemma JoinTriple(a: string, b: string, c: string)
    ensures Join([a, b, c]) == a + " " + b + " " + c
  {
    assert [a, b, c][..2] == [a, b];
    JoinPair(a, b);
  }

  /** The rendering of one, two or three keywords. */
  lemma RenderedOfOne(f: AccessFlags, a: string)
    requires Keywords(f) == [a]
    ensures Rendered(f) == a
  {
  }

  lemma RenderedOfPair(f: AccessFlags, a: string, b: string)
    requires Keywords(f) == [a, b]
    ensures Rendered(f) == a + " " + b
  {
    JoinPair(a, b);
  }

  lemma RenderedOfTriple(f: AccessFlags, a: string, b: string, c: string)
    requires Keywords(f) == [a, b, c]
    ensures Rendered(f) == a + " " + b + " " + c
  {
    JoinTriple(a, b, c);
  }

  lemma {:induction false} SpacedIsJoinAndSpace(words: seq<string>)
    requires words != []
    ensures Spaced(words) == Join(words) + " "
    decreases |words|
  {
    var init := words[..|words| - 1];
    if init != [] {
      SpacedIsJoinAndSpace(init);
    }
  }

  lemma {:induction false} JoinEnds(words: seq<string>)
    requires AllKeywords(words)
    ensures Join(words) == [] <==> words == []
    ensures Join(words) != [] ==> IsLetter(Join(words)[0]) && IsLetter(Join(words)[|Join(words)| - 1])
    decreases |words|
  {
    if |words| > 1 {
      var init := words[..|words| - 1];
      JoinEnds(init);
      assert IsKeyword(words[|words| - 1]);
    } else if |words| == 1 {
      assert IsKeyword(words[0]);
    }
  }

  lemma LetterNotWhitespace(c: char)
    requires IsLetter(c)
    ensures !IsWhitespace(c)
  {
  }

  /** Trimming stops at a non-whitespace character on either end. */
  lemma TrimKeepsEnds(s: string)
    requires s != [] && IsLetter(s[0]) && IsLetter(s[|s| - 1])
    ensures Trim(s) == s
  {
    LetterNotWhitespace(s[0]);
    LetterNotWhitespace(s[|s| - 1]);
    assert TrimStart(s) == s;
  }

  /** One trailing space is trimmed off a string that ends in a letter. */
  lemma TrimDropsSpace(j: string)
    requires j != [] && IsLetter(j[0]) && IsLetter(j[|j| - 1])
    ensures Trim(j + " ") == j
  {
    var t := j + " ";
    LetterNotWhitespace(t[0]);
    assert TrimStart(t) == t;
    assert IsWhitespace(t[|t| - 1]);
    assert t[..|t| - 1] == j;
    TrimKeepsEnds(j);
  }

  /** A run of spaced keywords, trimmed, is the keywords joined. */
  lemma TrimSpaced(words: seq<string>)
    requires AllKeywords(words)
    ensures Trim(Spaced(words)) == Join(words)
  {
    if words != [] {
      SpacedIsJoinAndSpace(words);
      JoinEnds(words);
      TrimDropsSpace(Join(words));
    }
  }

  /** A run of spaced keywords followed by one more keyword, trimmed, is
      all of them joined. */
  lemma TrimSpacedThenWord(words: seq<string>, w: string)
    requires AllKeywords(words) && IsKeyword(w)
    ensures Trim(Spaced(words) + w) == Join(words + [w])
  {
    AllKeywordsSnoc(words, w);
    SpacedThenWord(words, w);
    JoinIsTrimmed(words + [w]);
  }

  /** Keywords joined have nothing to trim. */
  lemma JoinIsTrimmed(words: seq<string>)
    requires AllKeywords(words) && words != []
    ensures Trim(Join(words)) == Join(words)
  {
    JoinEnds(words);
    TrimKeepsEnds(Join(words));
  }

  lemma AllKeywordsSnoc(words: seq<string>, w: string)
    requires AllKeywords(words) && IsKeyword(w)
    ensures AllKeywords(words + [w])
  {
    var all := words + [w];
    forall i | 0 <= i < |all| ensures IsKeyword(all[i]) {
      if i < |words| { assert all[i] == words[i]; }
    }
  }

  lemma SpacedThenWord(words: seq<string>, w: string)
    ensures Spaced(words) + w == Join(words + [w])
  {
    var all := words + [w];
    assert all[..|all| - 1] == words;
    assert all[|all| - 1] == w;
    if words != [] {
      SpacedIsJoinAndSpace(words);
    }
  }

  /** The string the seventeen spaced pushes and the final push build,
      trimmed, is the rendering. */
  lemma TrimOfPushed(flags: AccessFlags, spaced: string)
    requires PushedUpTo(flags, TestCount - 1, spaced)
    ensures Trim(spaced + IfSet(flags, ACC_DECLARED_SYNCHRONIZED, "synchronized")) == Rendered(flags)
  {
    var words := KeywordsUpTo(flags, TestCount - 1);
    LastTest(flags);
    KeywordsUpToAreKeywords(flags, TestCount - 1);
    if Contains(flags, ACC_DECLARED_SYNCHRONIZED) {
      SynchronizedIsKeyword();
      TrimSpacedThenWord(words, "synchronized");
    } else {
      assert spaced + [] == spaced;
      assert words + [] == words;
      TrimSpaced(words);
    }
  }

  /** The last test adds "synchronized" exactly when the declared-synchronized
      bit is set. */
  lemma LastTest(flags: AccessFlags)
    ensures Keywords(flags) == KeywordsUpTo(flags, TestCount - 1) +
              (if Contains(flags, ACC_DECLARED_SYNCHRONIZED) then ["synchronized"] else [])
  {
    assert Test(TestCount - 1) == (ACC_DECLARED_SYNCHRONIZED, "synchronized");
  }

  lemma SynchronizedIsKeyword()
    ensures IsKeyword("synchronized")
  {
  }


  // ---------------------------------------------------------------------
  // Properties of the rendering

  /** Every flag the renderer tests lies inside `RenderedMask`. */
  lemma TestBitInMask(i: nat)
    requires i < TestCount
    ensures Test(i).0 & RenderedMask == Test(i).0
  {
  }

  lemma AndWithinMask(f: AccessFlags, bit: AccessFlags)
    requires bit & RenderedMask == bit
    ensures f & bit == (f & RenderedMask) & bit
  {
  }

  /** A bit inside the mask is seen alike by two flag sets that agree on the mask. */
  lemma MaskedContains(f: AccessFlags, g: AccessFlags, bit: AccessFlags)
    requires f & RenderedMask == g & RenderedMask && bit & RenderedMask == bit
    ensures f & bit == g & bit
  {
    AndWithinMask(f, bit);
    AndWithinMask(g, bit);
  }

  lemma ContributionAgrees(f: AccessFlags, g: AccessFlags, i: nat)
    requires i < TestCount && f & Test(i).0 == g & Test(i).0
    ensures Contribution(f, i) == Contribution(g, i)
  {
  }

  /** Two flag sets that agree on every rendered bit have the same keywords. */
  lemma {:induction false} KeywordsAgree(f: AccessFlags, g: AccessFlags, n: nat)
    requires n <= TestCount
    requires forall i :: 0 <= i < n ==> f & Test(i).0 == g & Test(i).0
    ensures KeywordsUpTo(f, n) == KeywordsUpTo(g, n)
  {
    if n > 0 {
      KeywordsAgree(f, g, n - 1);
      ContributionAgrees(f, g, n - 1);
    }
  }

  /** Two flag sets that agree on the rendered bits render the same. */
  lemma RenderedBitsOnly(f: AccessFlags, g: AccessFlags)
    requires f & RenderedMask == g & RenderedMask
    ensures Rendered(f) == Rendered(g)
  {
    forall i | 0 <= i < TestCount
      ensures f & Test(i).0 == g & Test(i).0
    {
      TestBitInMask(i);
      MaskedContains(f, g, Test(i).0);
    }
    KeywordsAgree(f, g, TestCount);
  }

  /** Bits outside the rendered ones never show. */
  lemma UnrenderedBitsIgnored(f: AccessFlags)
    ensures Rendered(f) == Rendered(f & RenderedMask)
  {
    RenderedBitsOnly(f, f & RenderedMask);
  }

  /** The annotation flag has no keyword: setting or clearing it leaves the
      rendering unchanged. */
  lemma AnnotationNotRendered(f: AccessFlags)
    ensures Rendered(f | ACC_ANNOTATION) == Rendered(f & !ACC_ANNOTATION)
  {
    RenderedBitsOnly(f | ACC_ANNOTATION, f & !ACC_ANNOTATION);
  }

  /** A rendered flag that is set contributes its keyword; with
      `KeywordsFromTable`, the keywords are exactly those of the set flags. */
  lemma {:induction false} SetFlagShows(f: AccessFlags, n: nat, i: nat)
    requires i < n <= TestCount && Contains(f, Test(i).0)
    ensures Test(i).1 in KeywordsUpTo(f, n)
  {
    var prev := KeywordsUpTo(f, n - 1);
    assert KeywordsUpTo(f, n) == prev + Contribution(f, n - 1);
    if i < n - 1 {
      SetFlagShows(f, n - 1, i);
    } else {
      assert Contribution(f, i) == [Test(i).1];
    }
  }

  /** Tests whose flags are all clear add nothing. */
  lemma {:induction false} NoWordsBetween(f: AccessFlags, m: nat, n: nat)
    requires m <= n <= TestCount
    requires forall i :: m <= i < n ==> !Contains(f, Test(i).0)
    ensures KeywordsUpTo(f, n) == KeywordsUpTo(f, m)
    decreases n
  {
    if m < n {
      NoWordsBetween(f, m, n - 1);
      assert KeywordsUpTo(f, n) == KeywordsUpTo(f, n - 1) + [];
    }
  }

  /** The rendering is empty exactly when no rendered flag is set, and
      otherwise starts and ends with a letter: the trim leaves no edge
      space. */
  lemma RenderedShape(f: AccessFlags)
    ensures Rendered(f) == [] <==> forall i :: 0 <= i < TestCount ==> !Contains(f, Test(i).0)
    ensures Rendered(f) != [] ==> IsLetter(Rendered(f)[0]) && IsLetter(Rendered(f)[|Rendered(f)| - 1])
  {
    KeywordsUpToAreKeywords(f, TestCount);
    JoinEnds(Keywords(f));
    if forall i :: 0 <= i < TestCount ==> !Contains(f, Test(i).0) {
      NoWordsBetween(f, 0, TestCount);
    } else {
      var i :| 0 <= i < TestCount && Contains(f, Test(i).0);
      SetFlagShows(f, TestCount, i);
    }
  }

  // Concrete renderings: the crate's four unit tests (`it_can_display_access`,
  // `it_can_display_mixed_access_bitflags`, `..._protected_static_abstract`,
  // `..._public_interface_abstract_annotation`) and the shared bits.

  lemma KeywordsPublic(f: AccessFlags)
    requires f == ACC_PUBLIC
    ensures Keywords(f) == ["public"]
  {
    assert KeywordsUpTo(f, 1) == ["public"];
    NoWordsBetween(f, 1, TestCount);
  }

  /** `it_can_display_access`. */
  lemma RenderPublic(f: AccessFlags)
    requires f == ACC_PUBLIC
    ensures Rendered(f) == "public"
  {
    KeywordsPublic(f);
    RenderedOfOne(f, "public");
  }

  lemma KeywordsPublicDeclaredSynchronized(f: AccessFlags)
    requires f == ACC_PUBLIC | ACC_DECLARED_SYNCHRONIZED
    ensures Keywords(f) == ["public", "synchronized"]
  {
    assert KeywordsUpTo(f, 1) == ["public"];
    NoWordsBetween(f, 1, TestCount - 1);
    assert KeywordsUpTo(f, TestCount) == ["public", "synchronized"];
  }

  /** `it_can_display_mixed_access_bitflags`: the declared-synchronized bit prints as "synchronized". */
  lemma RenderPublicDeclaredSynchronized(f: AccessFlags)
    requires f == ACC_PUBLIC | ACC_DECLARED_SYNCHRONIZED
    ensures Rendered(f) == "public synchronized"
  {
    KeywordsPublicDeclaredSynchronized(f);
    RenderedOfPair(f, "public", "synchronized");
  }

  lemma KeywordsProtectedStaticAbstract(f: AccessFlags)
    requires f == ACC_PROTECTED | ACC_ABSTRACT | ACC_STATIC
    ensures Keywords(f) == ["protected", "static", "abstract"]
  {
    NoWordsBetween(f, 0, 2);
    assert KeywordsUpTo(f, 4) == ["protected", "static"];
    NoWordsBetween(f, 4, 11);
    assert KeywordsUpTo(f, 12) == ["protected", "static", "abstract"];
    NoWordsBetween(f, 12, TestCount);
  }

  /** `it_can_display_mixed_access_bitflags_protected_static_abstract`: table order, not the order the flags were combined in. */
  lemma RenderProtectedStaticAbstract(f: AccessFlags)
    requires f == ACC_PROTECTED | ACC_ABSTRACT | ACC_STATIC
    ensures Rendered(f) == "protected static abstract"
  {
    KeywordsProtectedStaticAbstract(f);
    RenderedOfTriple(f, "protected", "static", "abstract");
  }

  lemma KeywordsPublicInterfaceAbstractAnnotation(f: AccessFlags)
    requires f == ACC_PUBLIC | ACC_INTERFACE | ACC_ABSTRACT | ACC_ANNOTATION
    ensures Keywords(f) == ["public", "abstract", "interface"]
  {
    assert KeywordsUpTo(f, 1) == ["public"];
    NoWordsBetween(f, 1, 11);
    assert KeywordsUpTo(f, 13) == ["public", "abstract", "interface"];
    NoWordsBetween(f, 13, TestCount);
  }

  /** `it_can_display_mixed_access_bitflags_public_interface_abstract_annotation`: abstract before interface, and no word for the annotation bit. */
  lemma RenderPublicInterfaceAbstractAnnotation(f: AccessFlags)
    requires f == ACC_PUBLIC | ACC_INTERFACE | ACC_ABSTRACT | ACC_ANNOTATION
    ensures Rendered(f) == "public abstract interface"
  {
    KeywordsPublicInterfaceAbstractAnnotation(f);
    RenderedOfTriple(f, "public", "abstract", "interface");
  }

  lemma KeywordsVolatile(f: AccessFlags)
    requires f == ACC_VOLATILE
    ensures Keywords(f) == ["volatile", "bridge"]
  {
    NoWordsBetween(f, 0, 6);
    assert KeywordsUpTo(f, 8) == ["volatile", "bridge"];
    NoWordsBetween(f, 8, TestCount);
  }

  /** Bit 0x40 is both volatile and bridge, and prints both names. */
  lemma RenderVolatile(f: AccessFlags)
    requires f == ACC_VOLATILE
    ensures Rendered(f) == "volatile bridge"
  {
    KeywordsVolatile(f);
    RenderedOfPair(f, "volatile", "bridge");
  }

  lemma KeywordsTransient(f: AccessFlags)
    requires f == ACC_TRANSIENT
    ensures Keywords(f) == ["transient", "varargs"]
  {
    NoWordsBetween(f, 0, 8);
    assert KeywordsUpTo(f, 10) == ["transient", "varargs"];
    NoWordsBetween(f, 10, TestCount);
  }

  /** Bit 0x80 is both transient and varargs, and prints both names. */
  lemma RenderTransient(f: AccessFlags)
    requires f == ACC_TRANSIENT
    ensures Rendered(f) == "transient varargs"
  {
    KeywordsTransient(f);
    RenderedOfPair(f, "transient", "varargs");
  }

  lemma KeywordsSynchronized(f: AccessFlags)
    requires f == ACC_SYNCHRONIZED
    ensures Keywords(f) == ["synchronized"]
  {
    NoWordsBetween(f, 0, 5);
    assert KeywordsUpTo(f, 6) == ["synchronized"];
    NoWordsBetween(f, 6, TestCount);
  }

  /** The synchronized bit. */
  lemma RenderSynchronized(f: AccessFlags)
    requires f == ACC_SYNCHRONIZED
    ensures Rendered(f) == "synchronized"
  {
    KeywordsSynchronized(f);
    RenderedOfOne(f, "synchronized");
  }

  lemma KeywordsDeclaredSynchronized(f: AccessFlags)
    requires f == ACC_DECLARED_SYNCHRONIZED
    ensures Keywords(f) == ["synchronized"]
  {
    NoWordsBetween(f, 0, TestCount - 1);
    assert KeywordsUpTo(f, TestCount) == ["synchronized"];
  }

  /** The declared-synchronized bit prints the same keyword as the synchronized bit. */
  lemma RenderDeclaredSynchronized(f: AccessFlags)
    requires f == ACC_DECLARED_SYNCHRONIZED
    ensures Rendered(f) == "synchronized"
  {
    KeywordsDeclaredSynchronized(f);
    RenderedOfOne(f, "synchronized");
  }

  lemma KeywordsBothSynchronized(f: AccessFlags)
    requires f == ACC_SYNCHRONIZED | ACC_DECLARED_SYNCHRONIZED
    ensures Keywords(f) == ["synchronized", "synchronized"]
  {
    NoWordsBetween(f, 0, 5);
    assert KeywordsUpTo(f, 6) == ["synchronized"];
    NoWordsBetween(f, 6, TestCount - 1);
    assert KeywordsUpTo(f, TestCount) == ["synchronized", "synchronized"];
  }

  /** Both synchronized bits together print the keyword twice. */
  lemma RenderBothSynchronized(f: AccessFlags)
    requires f == ACC_SYNCHRONIZED | ACC_DECLARED_SYNCHRONIZED
    ensures Rendered(f) == "synchronized synchronized"
  {
    KeywordsBothSynchronized(f);
    RenderedOfPair(f, "synchronized", "synchronized");
  }
}
