/** JSON pointers (RFC 6901) as text, their relocation when a subtree moves, and their
    percent-coding in URI fragments (RFC 3986, section 2.1).

    Strings here are byte strings: one `char` below 256 per byte of the UTF-8 text. */
module JsonPointers {
  import opened Sequences

  type Path = seq<string>

  // ----- Pointer text

  function Replace(s: string, c: char, text: string): string {
    if s == "" then "" else (if s[0] == c then text else [s[0]]) + Replace(s[1..], c, text)
  }

  function Escape(name: string): string {
    Replace(Replace(name, '~', "~0"), '/', "~1")
  }

  function ChildPath(parent: string, name: string): string {
    parent + ("/" + Escape(name))
  }

  /** The pointer with these tokens. */
  function PointerText(path: Path): string {
    if path == [] then "" else "/" + Escape(path[0]) + PointerText(path[1..])
  }

  /** Reads an escaped token back: `~1` is a slash and `~0` a tilde (RFC 6901, section 4). */
  function Unescape(s: string): string {
    if |s| >= 2 && s[0] == '~' && s[1] == '1' then "/" + Unescape(s[2..])
    else if |s| >= 2 && s[0] == '~' && s[1] == '0' then "~" + Unescape(s[2..])
    else if s == "" then "" else [s[0]] + Unescape(s[1..])
  }

  function EscapeChar(c: char): string {
    if c == '~' then "~0" else if c == '/' then "~1" else [c]
  }

  lemma {:induction false} ReplaceCat(a: string, b: string, c: char, text: string)
    ensures Replace(a + b, c, text) == Replace(a, c, text) + Replace(b, c, text)
  {
    if a == "" {
      assert a + b == b;
    } else {
      assert (a + b)[1..] == a[1..] + b;
      ReplaceCat(a[1..], b, c, text);
      Cat2(if a[0] == c then text else [a[0]], Replace(a[1..], c, text), Replace(b, c, text));
    }
  }

  /** The two replacements together escape one character at a time. */
  lemma EscapeFirst(name: string)
    requires name != ""
    ensures Escape(name) == EscapeChar(name[0]) + Escape(name[1..])
  {
    var head := if name[0] == '~' then "~0" else [name[0]];
    ReplaceCat(head, Replace(name[1..], '~', "~0"), '/', "~1");
    assert Replace("~0", '/', "~1") == "~0" by {
      assert "~0"[1..] == "0" && "0"[1..] == "";
    }
    assert Replace([name[0]], '/', "~1") == (if name[0] == '/' then "~1" else [name[0]]) by {
      assert [name[0]][1..] == "";
    }
  }

  lemma {:induction false} EscapeHasNoSlash(name: string)
    ensures '/' !in Escape(name)
  {
    if name != "" {
      EscapeFirst(name);
      EscapeHasNoSlash(name[1..]);
    }
  }

  lemma {:induction false} UnescapeEscape(name: string)
    ensures Unescape(Escape(name)) == name
  {
    if name != "" {
      var rest := Escape(name[1..]);
      EscapeFirst(name);
      UnescapeEscape(name[1..]);
      assert Escape(name) == EscapeChar(name[0]) + rest;
      if name[0] == '~' || name[0] == '/' {
        assert Escape(name)[2..] == rest;
      } else {
        assert Escape(name)[1..] == rest;
      }
    }
  }

  lemma {:induction false} EscapeCat(a: string, b: string)
    ensures Escape(a + b) == Escape(a) + Escape(b)
  {
    ReplaceCat(a, b, '~', "~0");
    ReplaceCat(Replace(a, '~', "~0"), Replace(b, '~', "~0"), '/', "~1");
  }

  /** Escaping spells a tilde `~0`, a slash `~1` and every other character as itself (RFC 6901,
      section 3). */
  lemma EscapeSpells(a: string, c: char, b: string)
    ensures Escape(a + [c] + b) == Escape(a) + (if c == '~' then "~0" else if c == '/' then "~1" else [c]) + Escape(b)
    ensures Escape("") == ""
  {
    EscapeCat(a + [c], b);
    EscapeCat(a, [c]);
    EscapeFirst([c]);
    assert [c][1..] == "" && EscapeChar(c) + "" == EscapeChar(c);
    hide Replace;
  }

  lemma {:induction false} PointerTextCat(a: Path, b: Path)
    ensures PointerText(a + b) == PointerText(a) + PointerText(b)
  {
    if a == [] {
      assert a + b == b;
    } else {
      assert (a + b)[1..] == a[1..] + b;
      PointerTextCat(a[1..], b);
      Cat2("/" + Escape(a[0]), PointerText(a[1..]), PointerText(b));
    }
  }

  /** Extending a pointer by a token extends its text by the escaped token. */
  lemma ChildPathText(parent: string, path: Path, name: string)
    ensures ChildPath(parent + PointerText(path), name) == parent + PointerText(path + [name])
    ensures PointerText([]) == "" && PointerText(path + [name]) == PointerText(path) + ("/" + Escape(name))
  {
    PointerTextCat(path, [name]);
    assert [name][1..] == [];
    assert "/" + Escape(name) + "" == "/" + Escape(name);
    Cat2(parent, PointerText(path), "/" + Escape(name));
  }

  // ----- Prefixes at token boundaries

  predicate AtBoundary(s: string) {
    s == "" || s[0] == '/'
  }

  lemma PointerAtBoundary(path: Path)
    ensures AtBoundary(PointerText(path))
  {
  }

  lemma TextFirst(path: Path, rest: string)
    requires path != [] && AtBoundary(rest)
    ensures AtBoundary(PointerText(path[1..]) + rest)
    ensures PointerText(path) + rest == "/" + (Escape(path[0]) + (PointerText(path[1..]) + rest))
  {
    Cat2("/", Escape(path[0]), PointerText(path[1..]));
    Cat3("/", Escape(path[0]), PointerText(path[1..]), rest);
  }

  lemma SameFirst(a: string, b: string, s: string, t: string)
    requires Escape(a) + s == Escape(b) + t && AtBoundary(s) && AtBoundary(t)
    ensures a == b && s == t
  {
    EscapeHasNoSlash(a);
    EscapeHasNoSlash(b);
    UniqueRun(c => c != '/', Escape(a), Escape(b), s, t);
    UnescapeEscape(a);
    UnescapeEscape(b);
  }

  /** A pointer's text starts with another's at a token boundary only when its tokens do. */
  lemma {:induction false} PrefixIsPath(m: Path, q: Path, rest: string)
    requires PointerText(m) + rest == PointerText(q) && AtBoundary(rest)
    ensures m <= q && rest == PointerText(q[|m|..])
  {
    if m == [] {
      assert q[0..] == q && "" + rest == rest;
    } else {
      TextFirst(m, rest);
      assert q != [];
      TextFirst(q, "");
      assert PointerText(q) + "" == PointerText(q);
      SamePrefix("/", Escape(m[0]) + (PointerText(m[1..]) + rest), Escape(q[0]) + (PointerText(q[1..]) + ""));
      PointerAtBoundary(q[1..]);
      SameFirst(m[0], q[0], PointerText(m[1..]) + rest, PointerText(q[1..]) + "");
      assert PointerText(q[1..]) + "" == PointerText(q[1..]);
      PrefixIsPath(m[1..], q[1..], rest);
      assert m == [m[0]] + m[1..] && q == [q[0]] + q[1..];
      assert q[1..][|m| - 1..] == q[|m|..];
    }
  }

  // ----- Relocation

  const WRAPPED: Path := ["anyOf", "0"]

  /** The tokens of `q` after the subtree at `m` moved below a nullable wrapper. */
  function Relocate(q: Path, m: Path): Path {
    if m <= q then m + WRAPPED + q[|m|..] else q
  }

  function RelocateAll(q: Path, moves: seq<Path>): Path
    decreases |moves|
  {
    if moves == [] then q else RelocateAll(Relocate(q, moves[0]), moves[1..])
  }

  function RelocateText(path: string, from: string, to: string): string {
    if from <= path && AtBoundary(path[|from|..]) then to + path[|from|..] else path
  }

  function RelocateTexts(path: string, moves: seq<string>): string
    decreases |moves|
  {
    if moves == [] then path
    else RelocateTexts(RelocateText(path, moves[0], moves[0] + "/anyOf/0"), moves[1..])
  }

  /** The reverse relocations, last move first. */
  function RestoreTexts(path: string, moves: seq<string>): string
    decreases |moves|
  {
    if moves == [] then path
    else
      var last := moves[|moves| - 1];
      RestoreTexts(RelocateText(path, last + "/anyOf/0", last), moves[..|moves| - 1])
  }

  function Texts(moves: seq<Path>): seq<string> {
    seq(|moves|, i requires 0 <= i < |moves| => PointerText(moves[i]))
  }

  lemma SingleText(name: string)
    ensures PointerText([name]) == "/" + Escape(name)
  {
    assert [name][1..] == [];
    assert "/" + Escape(name) + "" == "/" + Escape(name);
  }

  lemma PairText(a: string, b: string)
    requires '~' !in a && '/' !in a && '~' !in b && '/' !in b
    ensures PointerText([a, b]) == "/" + a + ("/" + b)
  {
    PlainEscape(a);
    PlainEscape(b);
    SingleText(a);
    SingleText(b);
    PointerTextCat([a], [b]);
    assert [a, b] == [a] + [b];
  }

  lemma WrappedText()
    ensures PointerText(WRAPPED) == "/anyOf/0"
  {
    hide PointerText;
    PairText("anyOf", "0");
  }

  lemma {:induction false} PlainEscape(name: string)
    requires '~' !in name && '/' !in name
    ensures Escape(name) == name
  {
    if name != "" {
      EscapeFirst(name);
      PlainEscape(name[1..]);
      assert name == [name[0]] + name[1..];
    }
  }

  /** Relocating text is relocating tokens. */
  lemma RelocateIsText(q: Path, m: Path)
    ensures RelocateText(PointerText(q), PointerText(m), PointerText(m) + "/anyOf/0") == PointerText(Relocate(q, m))
  {
    var from, path := PointerText(m), PointerText(q);
    if m <= q {
      assert q == m + q[|m|..];
      PointerTextCat(m, q[|m|..]);
      PointerAtBoundary(q[|m|..]);
      assert path[|from|..] == PointerText(q[|m|..]);
      PointerTextCat(m, WRAPPED);
      PointerTextCat(m + WRAPPED, q[|m|..]);
      WrappedText();
    } else if from <= path && AtBoundary(path[|from|..]) {
      assert from + path[|from|..] == path;
      PrefixIsPath(m, q, path[|from|..]);
    }
  }

  lemma {:induction false} RelocateAllIsText(q: Path, moves: seq<Path>)
    ensures RelocateTexts(PointerText(q), Texts(moves)) == PointerText(RelocateAll(q, moves))
    decreases |moves|
  {
    if moves != [] {
      RelocateIsText(q, moves[0]);
      assert Texts(moves)[1..] == Texts(moves[1..]);
      RelocateAllIsText(Relocate(q, moves[0]), moves[1..]);
    }
  }

  predicate Below(path: string, m: string) {
    m <= path && AtBoundary(path[|m|..])
  }

  lemma BelowWrapper(path: string, m: string)
    requires Below(path, m + "/anyOf/0")
    ensures Below(path, m)
  {
    assert path[|m|] == (m + "/anyOf/0")[|m|];
  }

  lemma RelocateUndone(path: string, m: string)
    ensures var to := m + "/anyOf/0"; RelocateText(RelocateText(path, m, to), to, m) == path
  {
    var to := m + "/anyOf/0";
    if Below(path, m) {
      assert (to + path[|m|..])[|to|..] == path[|m|..];
      assert m + path[|m|..] == path;
    } else if Below(path, to) {
      BelowWrapper(path, m);
    }
  }

  /** The moves read backwards undo the moves, for every path. */
  lemma {:induction false} RestoreUndoes(path: string, moves: seq<string>)
    ensures RestoreTexts(RelocateTexts(path, moves), moves) == path
  {
    if moves != [] {
      var last, init := moves[|moves| - 1], moves[..|moves| - 1];
      RelocateLast(path, moves);
      RelocateUndone(RelocateTexts(path, init), last);
      RestoreUndoes(path, init);
    }
  }

  lemma {:induction false} RelocateLast(path: string, moves: seq<string>)
    requires moves != []
    ensures var last := moves[|moves| - 1];
      RelocateTexts(path, moves) == RelocateText(RelocateTexts(path, moves[..|moves| - 1]), last, last + "/anyOf/0")
    decreases |moves|
  {
    if |moves| > 1 {
      RelocateLast(RelocateText(path, moves[0], moves[0] + "/anyOf/0"), moves[1..]);
      assert moves[1..][..|moves| - 2] == moves[..|moves| - 1][1..];
    }
  }
}
