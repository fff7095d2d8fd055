/**
 * `PrettyPrintTree` (PrettyPrintTree.kt): renders a tree of names as text,
 * one line per node, with box-drawing branches or their ASCII substitutes.
 */
module PrettyPrintTree {
  import Seqs

  /** A node to print: its name and its children. */
  datatype Tree = Tree(name: string, children: seq<Tree>)

  /** The pipe and the two branch markers a tree prints with. */
  datatype Glyphs = Glyphs(pipe: char, branchTail: string, branch: string)

  /** The glyphs chosen by `prettyPrintUseAscii`. */
  function GlyphsFor(useAscii: bool): (g: Glyphs)
    ensures useAscii ==> g == Glyphs('|', "\\-- ", "|-- ")
    ensures !useAscii ==> g == Glyphs('│', "└── ", "├── ")
  {
    if !useAscii then Glyphs('│', "└── ", "├── ")
    else Glyphs('|', "\\-- ", "|-- ")
  }

  /** What the children's prefix adds: four spaces under a tail node, the pipe and three spaces otherwise. */
  function Indent(g: Glyphs, isTail: bool): string
  {
    if isTail then "    " else [g.pipe] + "   "
  }

  /** The line printed for one node. */
  function Line(t: Tree, g: Glyphs, prefix: string, isTail: bool): string
  {
    prefix + (if isTail then g.branchTail else g.branch) + t.name + "\n"
  }

  /** What `print(sb, prefix, isTail)` appends for a node and its subtree. */
  function Render(t: Tree, g: Glyphs, prefix: string, isTail: bool): string
    decreases t, |t.children| + 1
  {
    Line(t, g, prefix, isTail) + RenderChildren(t, g, prefix + Indent(g, isTail))
  }

  /** The children of a node: all but the last as inner branches, the last as the tail. */
  function RenderChildren(t: Tree, g: Glyphs, childPrefix: string): string
    decreases t, |t.children| + 1, 0
  {
    if |t.children| == 0 then ""
    else RenderInner(t, |t.children| - 1, g, childPrefix)
         + Render(t.children[|t.children| - 1], g, childPrefix, true)
  }

  /** The first `k` children of a node, each rendered as an inner (non-tail) branch. */
  function RenderInner(t: Tree, k: nat, g: Glyphs, childPrefix: string): string
    requires k <= |t.children|
    decreases t, k
  {
    if k == 0 then ""
    else RenderInner(t, k - 1, g, childPrefix) + Render(t.children[k - 1], g, childPrefix, false)
  }

  /** A `StringBuilder`. */
  class StringBuilder {
    var contents: string

    constructor()
      ensures contents == ""
    {
      contents := "";
    }

    method Append(s: string)
      modifies this
      ensures contents == old(contents) + s
    {
      contents := contents + s;
    }
  }

  /** The private `print(sb, prefix, isTail)`: appends the subtree's lines to `sb`. */
  method PrintTo(t: Tree, g: Glyphs, sb: StringBuilder, prefix: string, isTail: bool)
    modifies sb
    ensures sb.contents == old(sb.contents) + Render(t, g, prefix, isTail)
    decreases t
  {
    sb.Append(prefix + (if isTail then g.branchTail else g.branch) + t.name + "\n");
    ghost var start := old(sb.contents) + Line(t, g, prefix, isTail);
    var childPrefix := prefix + Indent(g, isTail);
    var i := 0;
    while i < |t.children| - 1
      invariant 0 <= i <= |t.children|
      invariant i <= |t.children| - 1 || i == 0
      invariant sb.contents == start + RenderInner(t, i, g, childPrefix)
    {
      PrintTo(t.children[i], g, sb, childPrefix, false);
      Seqs.Regroup(start, RenderInner(t, i, g, childPrefix), Render(t.children[i], g, childPrefix, false));
      i := i + 1;
    }
    if |t.children| > 0 {
      PrintTo(t.children[|t.children| - 1], g, sb, childPrefix, true);
      Seqs.Regroup(start, RenderInner(t, i, g, childPrefix), Render(t.children[i], g, childPrefix, true));
    } else {
      assert RenderChildren(t, g, childPrefix) == "";
    }
    Seqs.Regroup(old(sb.contents), Line(t, g, prefix, isTail), RenderChildren(t, g, childPrefix));
  }

  /** `print()`: the whole tree, the root printed as a tail with an empty prefix. */
  method Print(t: Tree, useAscii: bool) returns (s: string)
    ensures s == Render(t, GlyphsFor(useAscii), "", true)
  {
    var sb := new StringBuilder();
    PrintTo(t, GlyphsFor(useAscii), sb, "", true);
    s := sb.contents;
  }

  /** The number of nodes of a tree. */
  function Size(t: Tree): nat
    decreases t, |t.children| + 1
  {
    1 + SizeOfFirst(t, |t.children|)
  }

  function SizeOfFirst(t: Tree, k: nat): nat
    requires k <= |t.children|
    decreases t, k
  {
    if k == 0 then 0 else SizeOfFirst(t, k - 1) + Size(t.children[k - 1])
  }

  /** No name in the tree holds a line break. */
  predicate SingleLineNames(t: Tree)
    decreases t
  {
    '\n' !in t.name && forall i :: 0 <= i < |t.children| ==> SingleLineNames(t.children[i])
  }

  /** The number of line breaks in a string. */
  function Newlines(s: string): nat
  {
    if |s| == 0 then 0 else (if s[0] == '\n' then 1 else 0) + Newlines(s[1..])
  }

  lemma {:induction false} NewlinesAppend(a: string, b: string)
    ensures Newlines(a + b) == Newlines(a) + Newlines(b)
  {
    if |a| == 0 {
      assert a + b == b;
    } else {
      assert (a + b)[0] == a[0];
      assert (a + b)[1..] == a[1..] + b;
      NewlinesAppend(a[1..], b);
    }
  }

  lemma {:induction false} NoNewlines(s: string)
    requires '\n' !in s
    ensures Newlines(s) == 0
  {
    if |s| > 0 {
      assert s[0] in s;
      assert forall c :: c in s[1..] ==> c in s;
      NoNewlines(s[1..]);
    }
  }

  /** Glyphs without line breaks. */
  predicate SingleLineGlyphs(g: Glyphs)
  {
    g.pipe != '\n' && '\n' !in g.branchTail && '\n' !in g.branch
  }

  /** Each node's line holds exactly one line break, at its end. */
  lemma LineHasOneNewline(t: Tree, g: Glyphs, prefix: string, isTail: bool)
    requires SingleLineGlyphs(g) && '\n' !in prefix && '\n' !in t.name
    ensures Newlines(Line(t, g, prefix, isTail)) == 1
  {
    var head := prefix + (if isTail then g.branchTail else g.branch) + t.name;
    assert '\n' !in head;
    NoNewlines(head);
    NewlinesAppend(head, "\n");
    assert Newlines("\n") == 1 + Newlines("\n"[1..]);
  }

  /**
   * When neither the names nor the prefix hold line breaks, the rendering
   * has exactly one line per node.
   */
  lemma {:induction false} RenderLines(t: Tree, g: Glyphs, prefix: string, isTail: bool)
    requires SingleLineGlyphs(g) && SingleLineNames(t) && '\n' !in prefix
    ensures Newlines(Render(t, g, prefix, isTail)) == Size(t)
    decreases t, |t.children| + 1
  {
    var cp := prefix + Indent(g, isTail);
    assert '\n' !in Indent(g, isTail);
    LineHasOneNewline(t, g, prefix, isTail);
    NewlinesAppend(Line(t, g, prefix, isTail), RenderChildren(t, g, cp));
    if |t.children| > 0 {
      var last := |t.children| - 1;
      InnerLines(t, last, g, cp);
      RenderLines(t.children[last], g, cp, true);
      NewlinesAppend(RenderInner(t, last, g, cp), Render(t.children[last], g, cp, true));
    }
  }

  lemma {:induction false} InnerLines(t: Tree, k: nat, g: Glyphs, childPrefix: string)
    requires k <= |t.children|
    requires SingleLineGlyphs(g) && SingleLineNames(t) && '\n' !in childPrefix
    ensures Newlines(RenderInner(t, k, g, childPrefix)) == SizeOfFirst(t, k)
    decreases t, k
  {
    if k > 0 {
      InnerLines(t, k - 1, g, childPrefix);
      RenderLines(t.children[k - 1], g, childPrefix, false);
      NewlinesAppend(RenderInner(t, k - 1, g, childPrefix), Render(t.children[k - 1], g, childPrefix, false));
    }
  }

  /** `print()` emits one line per node, the first being the root's: the tail branch and its name. */
  lemma PrintSpec(t: Tree, useAscii: bool)
    requires SingleLineNames(t)
    ensures var out := Render(t, GlyphsFor(useAscii), "", true);
      && Newlines(out) == Size(t)
      && out[..|GlyphsFor(useAscii).branchTail| + |t.name| + 1] == GlyphsFor(useAscii).branchTail + t.name + "\n"
  {
    var g := GlyphsFor(useAscii);
    RenderLines(t, g, "", true);
    var line := Line(t, g, "", true);
    assert line == g.branchTail + t.name + "\n";
    assert Render(t, g, "", true)[..|line|] == line;
  }

  /** Every character is 7-bit ASCII. */
  predicate IsAscii(s: string)
  {
    forall i :: 0 <= i < |s| ==> (s[i] as int) < 128
  }

  /** Every name in the tree is ASCII. */
  predicate AsciiNames(t: Tree)
    decreases t
  {
    IsAscii(t.name) && forall i :: 0 <= i < |t.children| ==> AsciiNames(t.children[i])
  }

  /** In ASCII mode a tree of ASCII names renders as pure ASCII. */
  lemma {:induction false} AsciiRender(t: Tree, prefix: string, isTail: bool)
    requires AsciiNames(t) && IsAscii(prefix)
    ensures IsAscii(Render(t, GlyphsFor(true), prefix, isTail))
    decreases t, |t.children| + 1
  {
    var g := GlyphsFor(true);
    var cp := prefix + Indent(g, isTail);
    if |t.children| > 0 {
      var last := |t.children| - 1;
      AsciiInner(t, last, cp);
      AsciiRender(t.children[last], cp, true);
    }
  }

  lemma {:induction false} AsciiInner(t: Tree, k: nat, childPrefix: string)
    requires k <= |t.children|
    requires AsciiNames(t) && IsAscii(childPrefix)
    ensures IsAscii(RenderInner(t, k, GlyphsFor(true), childPrefix))
    decreases t, k
  {
    if k > 0 {
      AsciiInner(t, k - 1, childPrefix);
      AsciiRender(t.children[k - 1], childPrefix, false);
    }
  }

  /** The default glyphs are not ASCII: the root line starts with a box-drawing character. */
  lemma UnicodeRootLine(t: Tree)
    ensures !IsAscii(Render(t, GlyphsFor(false), "", true))
  {
    assert Render(t, GlyphsFor(false), "", true)[0] == '└';
  }
}
