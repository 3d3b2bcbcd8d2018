/**
 * The header generator unpack_extend.py: for every special unpacker function of the
 * API registry it prints one `extern` declaration, choosing the `crUnpackExtend` form
 * for functions tagged `extpack`, and wraps the declarations in the UNPACK_EXTEND_H
 * include guard.  The registry (`apiutil.AllSpecials`, `apiutil.ChromiumProps`) and
 * the copyright banner (`apiutil.CopyrightC`) are parameters.
 */
module UnpackExtend {

  /** Python's `print s`: the text followed by a newline. */
  function Print(s: string): string { s + "\n" }

  const HeaderText: string :=
    "/* DO NOT EDIT!  THIS CODE IS AUTOGENERATED BY unpack_extend.py */\n\n" +
    "#ifndef UNPACK_EXTEND_H\n#define UNPACK_EXTEND_H 1\n\n"

  const FooterText: string := "\n#endif\n"

  const ExtendPrefix: string := "extern void crUnpackExtend"
  const PlainPrefix: string := "extern void crUnpack"
  const DeclSuffix: string := "(void);"

  /** The declaration line printed for one special function. */
  function DeclLine(name: string, props: string -> seq<string>): string
  {
    if "extpack" in props(name) then ExtendPrefix + name + DeclSuffix
    else PlainPrefix + name + DeclSuffix
  }

  /** The declaration lines for a registry, in registry order. */
  function Decls(specials: seq<string>, props: string -> seq<string>): (ls: seq<string>)
    ensures |ls| == |specials|
    ensures forall i :: 0 <= i < |specials| ==> ls[i] == DeclLine(specials[i], props)
  {
    if specials == [] then []
    else Decls(specials[..|specials| - 1], props) + [DeclLine(specials[|specials| - 1], props)]
  }

  /** Lines printed one after the other. */
  function JoinLines(ls: seq<string>): string
  {
    if ls == [] then "" else Print(ls[0]) + JoinLines(ls[1..])
  }

  predicate NoNewline(s: string) { '\n' !in s }

  /** Length of the first line of `s`, i.e. the index of its first newline (or |s|). */
  function FirstLineLength(s: string): (k: nat)
    ensures k <= |s| && NoNewline(s[..k])
    ensures k < |s| ==> s[k] == '\n'
  {
    if s == [] || s[0] == '\n' then 0
    else
      var k := 1 + FirstLineLength(s[1..]);
      assert s[..k] == [s[0]] + s[1..][..k - 1];
      k
  }

  /** Splits newline-terminated text into its lines (a last unterminated line is kept). */
  function SplitLines(s: string): seq<string>
    decreases |s|
  {
    if s == [] then []
    else
      var k := FirstLineLength(s);
      if k == |s| then [s] else [s[..k]] + SplitLines(s[k + 1..])
  }

  lemma {:induction false} FirstLineOfPrinted(l: string, rest: string)
    requires NoNewline(l)
    ensures FirstLineLength(l + "\n" + rest) == |l|
    decreases |l|
  {
    if l != [] {
      assert (l + "\n" + rest)[1..] == l[1..] + "\n" + rest;
      FirstLineOfPrinted(l[1..], rest);
    }
  }

  /** Splitting printed lines gives the lines back. */
  lemma {:induction false} SplitJoinLines(ls: seq<string>)
    requires forall i :: 0 <= i < |ls| ==> NoNewline(ls[i])
    ensures SplitLines(JoinLines(ls)) == ls
  {
    if ls != [] {
      var rest := JoinLines(ls[1..]);
      var s := ls[0] + "\n" + rest;
      assert JoinLines(ls) == s;
      FirstLineOfPrinted(ls[0], rest);
      assert s[..|ls[0]|] == ls[0];
      assert s[|ls[0]| + 1..] == rest;
      SplitJoinLines(ls[1..]);
    }
  }

  /**
   * The declaration part of the output holds exactly one line per special, in the
   * order the registry yields them (names are single-line identifiers).
   */
  lemma DeclarationLines(specials: seq<string>, props: string -> seq<string>)
    requires forall i :: 0 <= i < |specials| ==> NoNewline(specials[i])
    ensures |SplitLines(JoinLines(Decls(specials, props)))| == |specials|
    ensures forall i :: 0 <= i < |specials| ==>
      SplitLines(JoinLines(Decls(specials, props)))[i] == DeclLine(specials[i], props)
  {
    var ls := Decls(specials, props);
    forall i | 0 <= i < |ls| ensures NoNewline(ls[i]) {
      assert ls[i] == DeclLine(specials[i], props);
      assert NoNewline(ExtendPrefix) && NoNewline(PlainPrefix) && NoNewline(DeclSuffix);
    }
    SplitJoinLines(ls);
  }

  /**
   * A declaration line names its function between a fixed prefix and `(void);`; the
   * prefix is the `crUnpackExtend` one exactly when the function is tagged `extpack`.
   */
  lemma DeclLineShape(name: string, props: string -> seq<string>)
    ensures var line := DeclLine(name, props);
      var prefix := if "extpack" in props(name) then ExtendPrefix else PlainPrefix;
      |line| == |prefix| + |name| + |DeclSuffix| &&
      line[..|prefix|] == prefix &&
      line[|prefix|..|prefix| + |name|] == name &&
      line[|prefix| + |name|..] == DeclSuffix
  {
  }

  /**
   * The script's output: banner, the DO-NOT-EDIT comment and the opening of the
   * include guard, one printed declaration per special in registry order, then the
   * closing `#endif`.
   */
  method Generate(banner: string, specials: seq<string>, props: string -> seq<string>)
    returns (out: string)
    ensures out == banner + Print(HeaderText) + JoinLines(Decls(specials, props)) + Print(FooterText)
  {
    var body := "";
    var i := 0;
    while i < |specials|
      invariant 0 <= i <= |specials|
      invariant body == JoinLines(Decls(specials[..i], props))
    {
      var name := specials[i];
      var line;
      if "extpack" in props(name) {
        line := ExtendPrefix + name + DeclSuffix;
      } else {
        line := PlainPrefix + name + DeclSuffix;
      }
      JoinLinesSnoc(Decls(specials[..i], props), line);
      assert specials[..i + 1][..i] == specials[..i];
      body := body + Print(line);
      i := i + 1;
    }
    assert specials[..i] == specials;
    out := banner + Print(HeaderText) + body + Print(FooterText);
  }

  lemma {:induction false} JoinLinesSnoc(ls: seq<string>, l: string)
    ensures JoinLines(ls + [l]) == JoinLines(ls) + Print(l)
  {
    if ls != [] {
      assert (ls + [l])[1..] == ls[1..] + [l];
      JoinLinesSnoc(ls[1..], l);
    }
  }
}
