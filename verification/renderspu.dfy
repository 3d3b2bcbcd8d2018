/**
 * The bookkeeping of the OpenGL render SPU (render/renderspu.c): a bounded table of
 * visuals that is searched before it is appended to, contexts that count references
 * and keep the context they share alive, windows whose size and visibility reach the
 * window system only when they change, a table of named barriers, and two helpers
 * that edit NUL-terminated strings in place.
 *
 * Window-system calls (`renderspu_System*`) are foreign: their outcome enters as a
 * parameter, and the calls that the model must not repeat are recorded in a log.
 */
module RenderSpu {
  import opened Wrappers
  import opened CStrings

  // ---------------------------------------------------------------------------
  // The visual description (renderspuMakeVisString).

  /** Visual attribute bits of the Chromium headers (chromium.h is not part of this model). */
  const CR_RGB_BIT: bv32 := 0x1
  const CR_ALPHA_BIT: bv32 := 0x2
  const CR_DEPTH_BIT: bv32 := 0x4
  const CR_STENCIL_BIT: bv32 := 0x8
  const CR_ACCUM_BIT: bv32 := 0x10
  const CR_DOUBLE_BIT: bv32 := 0x20
  const CR_STEREO_BIT: bv32 := 0x40
  const CR_MULTISAMPLE_BIT: bv32 := 0x80
  const CR_OVERLAY_BIT: bv32 := 0x100
  const CR_PBUFFER_BIT: bv32 := 0x200

  /** One test of renderspuMakeVisString: the bit it looks at and the text it appends. */
  datatype VisLabel = VisLabel(bit: bv32, text: string)

  /** The tests in the order the source performs them. */
  const VisLabels: seq<VisLabel> := [
    VisLabel(CR_RGB_BIT, "RGB"),
    VisLabel(CR_ALPHA_BIT, "A"),
    VisLabel(CR_DOUBLE_BIT, ", Doublebuffer"),
    VisLabel(CR_STEREO_BIT, ", Stereo"),
    VisLabel(CR_DEPTH_BIT, ", Z"),
    VisLabel(CR_STENCIL_BIT, ", Stencil"),
    VisLabel(CR_ACCUM_BIT, ", Accum"),
    VisLabel(CR_MULTISAMPLE_BIT, ", Multisample"),
    VisLabel(CR_OVERLAY_BIT, ", Overlay"),
    VisLabel(CR_PBUFFER_BIT, ", PBuffer")
  ]

  predicate Has(attribs: bv32, bit: bv32) { attribs & bit != 0 }

  /** What one test appends: its text when the bit is set, nothing otherwise. */
  function LabelText(attribs: bv32, l: VisLabel): string
  {
    if Has(attribs, l.bit) then l.text else ""
  }

  /** The texts of the set bits, in table order, one after the other. */
  function Describe(attribs: bv32, labels: seq<VisLabel>): string
  {
    if labels == [] then "" else Describe(attribs, labels[..|labels| - 1]) + LabelText(attribs, labels[|labels| - 1])
  }

  /** Which tests of the table succeed for `attribs`. */
  function Chosen(attribs: bv32, labels: seq<VisLabel>): (r: seq<bool>)
    ensures |r| == |labels|
    ensures forall i :: 0 <= i < |labels| ==> (r[i] <==> Has(attribs, labels[i].bit))
  {
    if labels == [] then [] else [Has(attribs, labels[0].bit)] + Chosen(attribs, labels[1..])
  }

  /**
   * Reading a description back: each label in turn is taken off the front of the
   * text when the text starts with it.
   */
  function Recognise(t: string, labels: seq<VisLabel>): (r: seq<bool>)
    ensures |r| == |labels|
  {
    if labels == [] then []
    else
      var l := labels[0].text;
      if |l| <= |t| && t[..|l|] == l then [true] + Recognise(t[|l|..], labels[1..])
      else [false] + Recognise(t, labels[1..])
  }

  /** `a` and `b` differ at some position that both of them have. */
  predicate Clash(a: string, b: string)
  {
    exists k :: 0 <= k < |a| && k < |b| && a[k] != b[k]
  }

  /** Every label text is non-empty and clashes with every later one. */
  predicate Unambiguous(labels: seq<VisLabel>)
  {
    && (forall i :: 0 <= i < |labels| ==> labels[i].text != [])
    && (forall i, j :: 0 <= i < j < |labels| ==> Clash(labels[i].text, labels[j].text))
  }

  /** Appending one more label extends the description by that label's text. */
  lemma {:induction false} DescribeCons(attribs: bv32, l: VisLabel, labels: seq<VisLabel>)
    ensures Describe(attribs, [l] + labels) == LabelText(attribs, l) + Describe(attribs, labels)
    decreases |labels|
  {
    if labels == [] {
      assert ([l] + labels)[..0] == [];
    } else {
      var ls := [l] + labels;
      var last := |labels| - 1;
      assert ls[..|ls| - 1] == [l] + labels[..last];
      assert ls[|ls| - 1] == labels[last];
      DescribeCons(attribs, l, labels[..last]);
      var head, mid, tail := LabelText(attribs, l), Describe(attribs, labels[..last]), LabelText(attribs, labels[last]);
      assert Describe(attribs, ls) == (head + mid) + tail;
      assert Describe(attribs, labels) == mid + tail;
      assert (head + mid) + tail == head + (mid + tail);
    }
  }

  /** A text that clashes with a label is never a prefix of what that label starts. */
  lemma ClashNotPrefix(a: string, b: string, rest: string)
    requires Clash(a, b)
    ensures !(|a| <= |b + rest| && (b + rest)[..|a|] == a)
  {
    var k :| 0 <= k < |a| && k < |b| && a[k] != b[k];
    if |a| <= |b + rest| {
      assert (b + rest)[..|a|][k] == b[k];
    }
  }

  /** A description built from labels that all clash with `a` never starts with `a`. */
  lemma {:induction false} DescribeAvoids(a: string, attribs: bv32, labels: seq<VisLabel>)
    requires a != []
    requires forall j :: 0 <= j < |labels| ==> Clash(a, labels[j].text)
    ensures !(|a| <= |Describe(attribs, labels)| && Describe(attribs, labels)[..|a|] == a)
    decreases |labels|
  {
    if labels != [] {
      assert labels == [labels[0]] + labels[1..];
      DescribeCons(attribs, labels[0], labels[1..]);
      var rest := Describe(attribs, labels[1..]);
      if Has(attribs, labels[0].bit) {
        ClashNotPrefix(a, labels[0].text, rest);
      } else {
        assert Describe(attribs, labels) == rest;
        forall j | 0 <= j < |labels| - 1 ensures Clash(a, labels[1..][j].text) {
          assert labels[1..][j] == labels[j + 1];
        }
        DescribeAvoids(a, attribs, labels[1..]);
      }
    }
  }

  /**
   * The description loses nothing: for an unambiguous table, reading it back tells
   * exactly which of the tested bits were set.
   */
  lemma {:induction false} RecogniseDescribe(attribs: bv32, labels: seq<VisLabel>)
    requires Unambiguous(labels)
    ensures Recognise(Describe(attribs, labels), labels) == Chosen(attribs, labels)
    decreases |labels|
  {
    if labels != [] {
      var l := labels[0];
      var tail := labels[1..];
      var rest := Describe(attribs, tail);
      assert labels == [l] + tail;
      DescribeCons(attribs, l, tail);
      UnambiguousTail(labels);
      RecogniseDescribe(attribs, tail);
      if Has(attribs, l.bit) {
        assert (l.text + rest)[..|l.text|] == l.text;
        assert (l.text + rest)[|l.text|..] == rest;
      } else {
        assert Describe(attribs, labels) == rest;
        DescribeAvoids(l.text, attribs, tail);
      }
    }
  }

  /** What an unambiguous table says about its first label and the labels after it. */
  lemma UnambiguousTail(labels: seq<VisLabel>)
    requires labels != [] && Unambiguous(labels)
    ensures labels[0].text != []
    ensures Unambiguous(labels[1..])
    ensures forall j :: 0 <= j < |labels| - 1 ==> Clash(labels[0].text, labels[1..][j].text)
  {
    var tail := labels[1..];
    forall i, j | 0 <= i < j < |tail| ensures Clash(tail[i].text, tail[j].text) {
      assert tail[i] == labels[i + 1] && tail[j] == labels[j + 1];
    }
    forall j | 0 <= j < |tail| ensures Clash(labels[0].text, tail[j].text) {
      assert tail[j] == labels[j + 1];
    }
  }

  /**
   * renderspuMakeVisString's table is unambiguous: "RGB" and "A" differ from every
   * other text in their first character, the texts starting with ", " differ in their
   * third, and ", Stereo" and ", Stencil" in their sixth.
   */
  lemma VisLabelsUnambiguous()
    ensures Unambiguous(VisLabels)
  {
    var t := VisLabels;
    VisLabelChars();
    forall i | 0 <= i < |t| ensures t[i].text != [] {
      assert |t[i].text| > 0;
    }
    forall i, j | 0 <= i < j < |t| ensures Clash(t[i].text, t[j].text) {
      var k := if i < 2 then 0 else if i == 3 && j == 5 then 5 else 2;
      assert t[i].text[k] != t[j].text[k];
    }
  }

  /** The characters that tell the label texts apart. */
  lemma VisLabelChars()
    ensures VisLabels[0].text[0] == 'R' && VisLabels[1].text[0] == 'A'
    ensures VisLabels[2].text[..3] == ", D" && VisLabels[3].text[..6] == ", Ster" && VisLabels[4].text[..3] == ", Z"
    ensures VisLabels[5].text[..6] == ", Sten" && VisLabels[3].text[5] == 'r' && VisLabels[5].text[5] == 'n'
    ensures VisLabels[6].text[..3] == ", A" && VisLabels[7].text[..3] == ", M"
    ensures VisLabels[8].text[..3] == ", O" && VisLabels[9].text[..3] == ", P"
  {
  }

  /** With none of the tested bits set the description is empty. */
  lemma {:induction false} DescribeNothing(attribs: bv32, labels: seq<VisLabel>)
    requires forall i :: 0 <= i < |labels| ==> !Has(attribs, labels[i].bit)
    ensures Describe(attribs, labels) == ""
    decreases |labels|
  {
    if labels != [] {
      DescribeNothing(attribs, labels[..|labels| - 1]);
    }
  }

  /** Sum of the label texts' lengths: no description is longer. */
  function TotalLength(labels: seq<VisLabel>): nat
  {
    if labels == [] then 0 else TotalLength(labels[..|labels| - 1]) + |labels[|labels| - 1].text|
  }

  lemma {:induction false} DescribeLength(attribs: bv32, labels: seq<VisLabel>)
    ensures |Describe(attribs, labels)| <= TotalLength(labels)
    decreases |labels|
  {
    if labels != [] {
      DescribeLength(attribs, labels[..|labels| - 1]);
    }
  }

  /** A description of renderspuMakeVisString never exceeds 76 characters. */
  lemma VisDescriptionBound(attribs: bv32)
    ensures |Describe(attribs, VisLabels)| <= 76
  {
    DescribeLength(attribs, VisLabels);
    var t := VisLabels;
    assert TotalLength(t[..0]) == 0;
    assert t[..1][..0] == t[..0];
    assert TotalLength(t[..1]) == 3;
    assert t[..2][..1] == t[..1];
    assert TotalLength(t[..2]) == 4;
    assert t[..3][..2] == t[..2];
    assert TotalLength(t[..3]) == 18;
    assert t[..4][..3] == t[..3];
    assert TotalLength(t[..4]) == 26;
    assert t[..5][..4] == t[..4];
    assert TotalLength(t[..5]) == 29;
    assert t[..6][..5] == t[..5];
    assert TotalLength(t[..6]) == 38;
    assert t[..7][..6] == t[..6];
    assert TotalLength(t[..7]) == 45;
    assert t[..8][..7] == t[..7];
    assert TotalLength(t[..8]) == 58;
    assert t[..9][..8] == t[..8];
    assert TotalLength(t[..9]) == 67;
    assert t[..10][..9] == t[..9];
    assert t[..10] == t;
  }

  lemma LabelTextsHaveNoNul()
    ensures forall i :: 0 <= i < |VisLabels| ==> NUL !in VisLabels[i].text
  {
  }

  /**
   * renderspuMakeVisString: the buffer is emptied, then each test of the table, in
   * order, appends its text with crStrcat.
   */
  method MakeVisString(visAttribs: bv32, s: array<char>)
    requires s.Length > |Describe(visAttribs, VisLabels)|
    modifies s
    ensures CString(s[..]) == Describe(visAttribs, VisLabels)
  {
    s[0] := NUL;
    assert CString(s[..]) == "";
    LabelTextsHaveNoNul();
    AppendLabels(visAttribs, VisLabels, s);
  }

  /** The tests of `labels`, in order, each appending its text when its bit is set. */
  method AppendLabels(attribs: bv32, labels: seq<VisLabel>, s: array<char>)
    requires forall i :: 0 <= i < |labels| ==> NUL !in labels[i].text
    requires |CString(s[..])| + |Describe(attribs, labels)| < s.Length
    modifies s
    ensures CString(s[..]) == old(CString(s[..])) + Describe(attribs, labels)
  {
    ghost var start := CString(s[..]);
    ghost var done: string := "";
    assert labels[..0] == [];
    for i := 0 to |labels|
      invariant done == Describe(attribs, labels[..i])
      invariant |done| <= |Describe(attribs, labels)|
      invariant CString(s[..]) == start + done
    {
      DescribeStep(attribs, labels, i);
      DescribePrefixGrows(attribs, labels, i + 1);
      AppendLabel(attribs, labels[i], s);
      Assoc(start, done, LabelText(attribs, labels[i]));
      done := done + LabelText(attribs, labels[i]);
    }
    assert labels[..|labels|] == labels;
  }

  lemma Assoc(a: string, b: string, c: string)
    ensures (a + b) + c == a + (b + c)
  {
  }

  lemma DescribeStep(attribs: bv32, labels: seq<VisLabel>, i: nat)
    requires i < |labels|
    ensures Describe(attribs, labels[..i + 1]) == Describe(attribs, labels[..i]) + LabelText(attribs, labels[i])
  {
    assert labels[..i + 1][..i] == labels[..i];
  }

  /** One test of renderspuMakeVisString: crStrcat of the label's text when its bit is set. */
  method AppendLabel(attribs: bv32, l: VisLabel, s: array<char>)
    requires NUL !in l.text
    requires |CString(s[..])| + |LabelText(attribs, l)| < s.Length
    modifies s
    ensures CString(s[..]) == old(CString(s[..])) + LabelText(attribs, l)
  {
    assert s[..][|CString(s[..])|] == NUL;
    if Has(attribs, l.bit) {
      Strcat(s, l.text);
    }
  }

  /** The description of a prefix of the table is no longer than the whole description. */
  lemma {:induction false} DescribePrefixGrows(attribs: bv32, labels: seq<VisLabel>, n: nat)
    requires n <= |labels|
    ensures |Describe(attribs, labels[..n])| <= |Describe(attribs, labels)|
    decreases |labels|
  {
    if n < |labels| {
      var init := labels[..|labels| - 1];
      assert labels[..n] == init[..n];
      DescribePrefixGrows(attribs, init, n);
    } else {
      assert labels[..n] == labels;
    }
  }

  // ---------------------------------------------------------------------------
  // remove_trailing_space.

  /** `t` without its trailing spaces. */
  function TrimRight(t: string): (r: string)
    ensures |r| <= |t| && r == t[..|r|]
    ensures forall k :: |r| <= k < |t| ==> t[k] == ' '
    ensures r == [] || r[|r| - 1] != ' '
  {
    if t != [] && t[|t| - 1] == ' ' then TrimRight(t[..|t| - 1]) else t
  }

  /**
   * Trimming removes exactly the trailing spaces: any prefix that leaves only spaces
   * behind and does not itself end in a space is the trimmed text.
   */
  lemma {:induction false} TrimRightUnique(t: string, r: string)
    requires |r| <= |t| && r == t[..|r|]
    requires forall k :: |r| <= k < |t| ==> t[k] == ' '
    requires r == [] || r[|r| - 1] != ' '
    ensures r == TrimRight(t)
    decreases |t|
  {
    if |r| == |t| {
      assert r == t;
    } else {
      assert t[|t| - 1] == ' ';
      var init := t[..|t| - 1];
      assert r == init[..|r|];
      TrimRightUnique(init, r);
    }
  }

  /** Trimming twice is trimming once. */
  lemma TrimRightIdempotent(t: string)
    ensures TrimRight(TrimRight(t)) == TrimRight(t)
  {
    var r := TrimRight(t);
    TrimRightUnique(r, r);
  }

  /**
   * remove_trailing_space: the index of the NUL walks back over the spaces before
   * it and a NUL is written where it stops; no other cell changes.
   */
  method RemoveTrailingSpace(s: array<char>)
    requires NUL in s[..]
    modifies s
    ensures NUL in s[..]
    ensures CString(s[..]) == TrimRight(old(CString(s[..])))
    ensures forall j :: 0 <= j < s.Length && j != |CString(s[..])| ==> s[j] == old(s[j])
  {
    var k := Strlen(s);
    ghost var t := s[..k];
    while k > 0 && s[k - 1] == ' '
      invariant 0 <= k <= |t|
      invariant forall j :: k <= j < |t| ==> t[j] == ' '
    {
      k := k - 1;
    }
    TrimRightUnique(t, t[..k]);
    s[k] := NUL;
    CStringOfTerminated(s[..], t[..k]);
  }

  // ---------------------------------------------------------------------------
  // The visual table (renderspuFindVisual).

  /** A visual: the display it was made for and its attribute bits. */
  datatype Visual = Visual(displayName: string, visAttribs: bv32)

  /**
   * Whether an entry answers a request.  Windows and Darwin builds compare the
   * attribute bits only; GLX builds compare the display name as well.
   */
  predicate Serves(v: Visual, displayName: string, visAttribs: bv32, glx: bool)
  {
    v.visAttribs == visAttribs && (glx ==> v.displayName == displayName)
  }

  /** Index of the first entry that answers the request, or the length when none does. */
  function FirstMatch(vs: seq<Visual>, displayName: string, visAttribs: bv32, glx: bool): (p: nat)
    ensures p <= |vs|
    ensures p < |vs| ==> Serves(vs[p], displayName, visAttribs, glx)
    ensures forall k :: 0 <= k < p ==> !Serves(vs[k], displayName, visAttribs, glx)
  {
    if vs == [] then 0
    else if Serves(vs[0], displayName, visAttribs, glx) then 0
    else 1 + FirstMatch(vs[1..], displayName, visAttribs, glx)
  }

  /** The first answering entry is the only index before which nothing answers. */
  lemma {:induction false} FirstMatchAt(vs: seq<Visual>, displayName: string, visAttribs: bv32, glx: bool, p: nat)
    requires p <= |vs|
    requires p < |vs| ==> Serves(vs[p], displayName, visAttribs, glx)
    requires forall k :: 0 <= k < p ==> !Serves(vs[k], displayName, visAttribs, glx)
    ensures p == FirstMatch(vs, displayName, visAttribs, glx)
  {
    if p > 0 {
      assert !Serves(vs[0], displayName, visAttribs, glx);
      FirstMatchAt(vs[1..], displayName, visAttribs, glx, p - 1);
    }
  }

  /** The display name a lookup uses: a missing name is taken as the empty string. */
  function NameOrEmpty(displayName: Option<string>): string
  {
    if displayName.None? then "" else displayName.value
  }

  /**
   * What renderspuFindVisual does to the list of live entries, and what it answers:
   * an existing entry when one answers, nothing when the table is full, otherwise
   * a new last entry when the window system accepts it.
   */
  function FindSpec(vs: seq<Visual>, capacity: nat, displayName: string, visAttribs: bv32, glx: bool, initOk: bool): (r: (seq<Visual>, Option<nat>))
    ensures r.1.Some? ==> r.1.value < |r.0| && Serves(r.0[r.1.value], displayName, visAttribs, glx)
    ensures r.0 == vs || r.0 == vs + [Visual(displayName, visAttribs)]
    ensures |vs| <= capacity ==> |r.0| <= capacity
  {
    var m := FirstMatch(vs, displayName, visAttribs, glx);
    if m < |vs| then (vs, Some(m))
    else if |vs| >= capacity then (vs, None)
    else if initOk then (vs + [Visual(displayName, visAttribs)], Some(|vs|))
    else (vs, None)
  }

  /**
   * A second request for a visual that was just found or added gets the same entry
   * and leaves the table as it is.
   */
  lemma FindAgain(vs: seq<Visual>, capacity: nat, displayName: string, visAttribs: bv32, glx: bool, initOk: bool, initOk2: bool)
    requires FindSpec(vs, capacity, displayName, visAttribs, glx, initOk).1.Some?
    ensures var (vs1, r1) := FindSpec(vs, capacity, displayName, visAttribs, glx, initOk);
      FindSpec(vs1, capacity, displayName, visAttribs, glx, initOk2) == (vs1, r1)
  {
    var (vs1, r1) := FindSpec(vs, capacity, displayName, visAttribs, glx, initOk);
    var m := FirstMatch(vs, displayName, visAttribs, glx);
    if m == |vs| {
      assert vs1 == vs + [Visual(displayName, visAttribs)];
      FirstMatchAt(vs1, displayName, visAttribs, glx, |vs|);
    } else {
      assert vs1 == vs;
    }
  }

  /** render_spu.visuals and render_spu.numVisuals: a fixed array of MAX_VISUALS entries, the first numVisuals live. */
  class VisualTable {
    const glx: bool
    const visuals: array<Visual>
    var numVisuals: nat

    ghost predicate Valid()
      reads this
    {
      numVisuals <= visuals.Length
    }

    /** The live entries. */
    ghost function Entries(): seq<Visual>
      reads this, visuals
      requires Valid()
    {
      visuals[..numVisuals]
    }

    constructor (maxVisuals: nat, glx: bool)
      ensures Valid() && fresh(visuals)
      ensures visuals.Length == maxVisuals && Entries() == [] && this.glx == glx
    {
      this.glx := glx;
      visuals := new Visual[maxVisuals](_ => Visual("", 0));
      numVisuals := 0;
    }

    /** The search loop of renderspuFindVisual. */
    method Scan(displayName: string, visAttribs: bv32) returns (i: nat)
      requires Valid()
      ensures i == FirstMatch(Entries(), displayName, visAttribs, glx)
    {
      i := 0;
      while i < numVisuals && !Serves(visuals[i], displayName, visAttribs, glx)
        invariant i <= numVisuals
        invariant forall k :: 0 <= k < i ==> !Serves(visuals[k], displayName, visAttribs, glx)
      {
        i := i + 1;
      }
      FirstMatchAt(Entries(), displayName, visAttribs, glx, i);
    }

    /**
     * renderspuFindVisual: a matching entry is returned as it is; a full table gives
     * no visual; otherwise the next slot is filled in and becomes live only when the
     * window system accepts it (`initOk`, the result of renderspu_SystemInitVisual).
     */
    method FindVisual(displayName: Option<string>, visAttribs: bv32, initOk: bool) returns (r: Option<nat>)
      requires Valid()
      modifies this`numVisuals, visuals
      ensures Valid()
      ensures (Entries(), r) == FindSpec(old(Entries()), visuals.Length, NameOrEmpty(displayName), visAttribs, glx, initOk)
      ensures FirstMatch(old(Entries()), NameOrEmpty(displayName), visAttribs, glx) < old(numVisuals) ==> unchanged(visuals)
      ensures old(numVisuals) >= visuals.Length ==> unchanged(visuals)
      ensures forall k :: 0 <= k < visuals.Length && k != old(numVisuals) ==> visuals[k] == old(visuals[k])
      ensures FirstMatch(old(Entries()), NameOrEmpty(displayName), visAttribs, glx) == old(numVisuals) < visuals.Length ==>
        visuals[old(numVisuals)] == Visual(NameOrEmpty(displayName), visAttribs)
    {
      var name := NameOrEmpty(displayName);
      var i := Scan(name, visAttribs);
      if i < numVisuals {
        return Some(i);
      }
      if numVisuals >= visuals.Length {
        return None;
      }
      i := numVisuals;
      visuals[i] := Visual(name, visAttribs);
      if initOk {
        numVisuals := numVisuals + 1;
        assert visuals[..numVisuals] == old(visuals[..numVisuals]) + [Visual(name, visAttribs)];
        r := Some(i);
      } else {
        assert visuals[..numVisuals] == old(visuals[..numVisuals]);
        r := None;
      }
    }
  }

  // ---------------------------------------------------------------------------
  // Contexts and their reference counts.

  /** renderspu.h's CR_RENDER_DEFAULT_CONTEXT_ID (INT32_MAX - 1); renderspu.h is not part of this model. */
  const CR_RENDER_DEFAULT_CONTEXT_ID: int := 0x7fff_fffe

  /**
   * A ContextInfo as far as its bookkeeping goes: its id (-1 once marked deleted),
   * its reference count, the context it shares objects with (an index into the list
   * of contexts, standing for the `shared` pointer), its visual bits, and whether it
   * still exists (false once terminated and freed).
   */
  datatype Ctx = Ctx(id: int, cRefs: nat, shared: Option<nat>, visualBits: bv32, alive: bool)

  /** ASMAtomicDecU32: one less, wrapping from 0 to UINT32_MAX. */
  function Dec32(n: nat): nat
  {
    if n == 0 then 0xFFFF_FFFF else n - 1
  }

  /** A context only shares one created before it. */
  ghost predicate Linked(cs: seq<Ctx>)
  {
    forall i :: 0 <= i < |cs| && cs[i].shared.Some? ==> cs[i].shared.value < i
  }

  /** A live context's shared context is live too. */
  ghost predicate Supported(cs: seq<Ctx>)
  {
    forall i :: 0 <= i < |cs| && cs[i].alive && cs[i].shared.Some? && cs[i].shared.value < |cs| ==> cs[cs[i].shared.value].alive
  }

  /** The live contexts that share `p`: each holds one reference to it. */
  ghost function Referrers(cs: seq<Ctx>, p: nat): set<nat>
  {
    set d: nat | d < |cs| && cs[d].alive && cs[d].shared == Some(p)
  }

  /** The reference the context table holds, until the context is marked deleted. */
  function Owned(c: Ctx): nat
  {
    if c.id != -1 then 1 else 0
  }

  /** `p`'s count is its table reference plus one per referrer, plus `extra` not yet given back. */
  ghost predicate CountOk(cs: seq<Ctx>, p: nat, extra: nat)
    requires p < |cs|
  {
    cs[p].cRefs == Owned(cs[p]) + |Referrers(cs, p)| + extra
  }

  /** Every live context's count is exactly the number of references to it. */
  ghost predicate RefsExact(cs: seq<Ctx>)
  {
    forall p :: 0 <= p < |cs| && cs[p].alive ==> CountOk(cs, p, 0)
  }

  /** As RefsExact, except that `q` counts one reference that has already been dropped. */
  ghost predicate RefsPending(cs: seq<Ctx>, q: nat)
  {
    && q < |cs| && cs[q].alive && CountOk(cs, q, 1)
    && forall p :: 0 <= p < |cs| && p != q && cs[p].alive ==> CountOk(cs, p, 0)
  }

  /**
   * renderspuContextRelease: the count goes down by one, and a context whose count
   * reaches zero is terminated.
   */
  function ReleaseSpec(cs: seq<Ctx>, p: nat): (r: seq<Ctx>)
    requires p < |cs| && Linked(cs)
    ensures |r| == |cs| && Linked(r)
    ensures forall i :: 0 <= i < |cs| ==> r[i].id == cs[i].id && r[i].shared == cs[i].shared && r[i].visualBits == cs[i].visualBits
    ensures forall i :: 0 <= i < |cs| && r[i].alive ==> cs[i].alive
    ensures forall i :: p < i < |cs| ==> r[i] == cs[i]
    decreases p, 1
  {
    var n := Dec32(cs[p].cRefs);
    var cs1 := cs[p := cs[p].(cRefs := n)];
    if n == 0 then TerminateSpec(cs1, p) else cs1
  }

  /**
   * renderspuDestroyContextTerminate: the context is destroyed and freed, and the
   * reference it held on its shared context is released.
   */
  function TerminateSpec(cs: seq<Ctx>, p: nat): (r: seq<Ctx>)
    requires p < |cs| && Linked(cs)
    ensures |r| == |cs| && Linked(r)
    ensures forall i :: 0 <= i < |cs| ==> r[i].id == cs[i].id && r[i].shared == cs[i].shared && r[i].visualBits == cs[i].visualBits
    ensures forall i :: 0 <= i < |cs| && r[i].alive ==> cs[i].alive
    ensures forall i :: p < i < |cs| ==> r[i] == cs[i]
    ensures !r[p].alive
    decreases p, 0
  {
    var cs2 := cs[p := cs[p].(alive := false)];
    if cs2[p].shared.Some? then ReleaseSpec(cs2, cs2[p].shared.value) else cs2
  }

  /** Changing anything but liveness and sharing keeps a context's referrers. */
  lemma ReferrersKept(a: seq<Ctx>, b: seq<Ctx>, q: nat)
    requires |a| == |b|
    requires forall d :: 0 <= d < |a| ==> a[d].alive == b[d].alive && a[d].shared == b[d].shared
    ensures Referrers(a, q) == Referrers(b, q)
  {
  }

  /** Terminating `p` takes it out of its shared context's referrers and nobody else's. */
  lemma ReferrersAfterKill(a: seq<Ctx>, b: seq<Ctx>, p: nat, q: nat)
    requires |a| == |b| && p < |a| && a[p].alive && !b[p].alive
    requires forall d :: 0 <= d < |a| && d != p ==> a[d].alive == b[d].alive && a[d].shared == b[d].shared
    ensures Referrers(b, q) == if a[p].shared == Some(q) then Referrers(a, q) - {p} else Referrers(a, q)
  {
  }

  /** A release that leaves the count above zero: the dropped reference is given back. */
  lemma DecrementStep(cs: seq<Ctx>, p: nat)
    requires Linked(cs) && Supported(cs) && RefsPending(cs, p)
    ensures cs[p].cRefs >= 1
    ensures var cs1 := cs[p := cs[p].(cRefs := cs[p].cRefs - 1)];
      Supported(cs1) && RefsExact(cs1)
  {
    var cs1 := cs[p := cs[p].(cRefs := cs[p].cRefs - 1)];
    forall x | 0 <= x < |cs1| && cs1[x].alive ensures CountOk(cs1, x, 0) {
      ReferrersKept(cs, cs1, x);
    }
  }

  /**
   * A release that brings the count to zero: the context had been marked deleted and
   * nothing shares it any more; once it is terminated, its shared context (if any)
   * is the one still counting a dropped reference.
   */
  lemma KillStep(cs: seq<Ctx>, p: nat)
    requires Linked(cs) && Supported(cs) && RefsPending(cs, p) && cs[p].cRefs == 1
    ensures cs[p].id == -1
    ensures var cs2 := cs[p := cs[p].(cRefs := 0, alive := false)];
      && Linked(cs2) && Supported(cs2)
      && (cs[p].shared.None? ==> RefsExact(cs2))
      && (cs[p].shared.Some? ==> RefsPending(cs2, cs[p].shared.value))
  {
    var cs2 := cs[p := cs[p].(cRefs := 0, alive := false)];
    assert Referrers(cs, p) == {};
    forall i | 0 <= i < |cs2| && cs2[i].alive && cs2[i].shared.Some? && cs2[i].shared.value < |cs2|
      ensures cs2[cs2[i].shared.value].alive
    {
      assert i !in Referrers(cs, p);
    }
    forall x | 0 <= x < |cs2| && x != p && cs2[x].alive && cs[p].shared != Some(x) ensures CountOk(cs2, x, 0) {
      ReferrersAfterKill(cs, cs2, p, x);
    }
    if cs[p].shared.Some? {
      var q := cs[p].shared.value;
      ReferrersAfterKill(cs, cs2, p, q);
      assert p in Referrers(cs, q);
      assert Referrers(cs, q) == Referrers(cs2, q) + {p};
    }
  }

  /**
   * Release keeps the counts right: if every count is exact except that `p` still
   * counts one dropped reference, then after the release every live count is exact,
   * every shared context of a live context is live, and the only contexts that were
   * terminated had been marked deleted (the CRASSERT of renderspuDestroyContextTerminate).
   */
  lemma {:induction false} ReleaseKeepsCounts(cs: seq<Ctx>, p: nat)
    requires Linked(cs) && Supported(cs) && RefsPending(cs, p)
    ensures RefsExact(ReleaseSpec(cs, p)) && Supported(ReleaseSpec(cs, p))
    ensures forall i :: 0 <= i < |cs| && cs[i].alive && !ReleaseSpec(cs, p)[i].alive ==> cs[i].id == -1
    decreases p
  {
    DecrementStep(cs, p);
    if cs[p].cRefs == 1 {
      KillStep(cs, p);
      var cs1 := cs[p := cs[p].(cRefs := 0)];
      var cs2 := cs1[p := cs1[p].(alive := false)];
      assert cs2 == cs[p := cs[p].(cRefs := 0, alive := false)];
      assert ReleaseSpec(cs, p) == TerminateSpec(cs1, p);
      if cs[p].shared.Some? {
        ReleaseKeepsCounts(cs2, cs[p].shared.value);
      }
    }
  }

  /**
   * A new context, as renderspuCreateContextInternal adds it: it joins the list with
   * one reference (the table's), and the context it shares gains one.
   */
  function AddContext(cs: seq<Ctx>, c: Ctx): (r: seq<Ctx>)
    requires c.shared.Some? ==> c.shared.value < |cs|
    ensures |r| == |cs| + 1 && r[|cs|] == c
  {
    var bumped := if c.shared.Some? then cs[c.shared.value := cs[c.shared.value].(cRefs := cs[c.shared.value].cRefs + 1)] else cs;
    bumped + [c]
  }

  /**
   * Adding a live context with a fresh id, one reference and a live shared context
   * keeps every count exact and every shared context live.
   */
  lemma AddKeepsCounts(cs: seq<Ctx>, c: Ctx)
    requires Linked(cs) && Supported(cs) && RefsExact(cs)
    requires c.alive && c.id != -1 && c.cRefs == 1
    requires c.shared.Some? ==> c.shared.value < |cs| && cs[c.shared.value].alive
    ensures Linked(AddContext(cs, c)) && Supported(AddContext(cs, c)) && RefsExact(AddContext(cs, c))
  {
    var r := AddContext(cs, c);
    assert forall i :: 0 <= i < |cs| ==> r[i].alive == cs[i].alive && r[i].shared == cs[i].shared;
    forall x | 0 <= x < |r| && r[x].alive ensures CountOk(r, x, 0) {
      ReferrersAfterAdd(cs, c, x);
    }
  }

  /** The new context has no referrers yet; the one it shares gains it as a referrer. */
  lemma ReferrersAfterAdd(cs: seq<Ctx>, c: Ctx, q: nat)
    requires Linked(cs) && c.alive
    requires c.shared.Some? ==> c.shared.value < |cs|
    ensures q == |cs| ==> Referrers(AddContext(cs, c), q) == {}
    ensures q < |cs| ==> Referrers(AddContext(cs, c), q) == if c.shared == Some(q) then Referrers(cs, q) + {|cs|} else Referrers(cs, q)
  {
    var r := AddContext(cs, c);
    assert forall i :: 0 <= i < |cs| ==> r[i].alive == cs[i].alive && r[i].shared == cs[i].shared;
  }

  /** Every key of the context table names a live context that carries that key as its id. */
  ghost predicate TableOk(table: map<int, nat>, cs: seq<Ctx>)
  {
    forall id :: id in table ==> id > 0 && table[id] < |cs| && cs[table[id]].alive && cs[table[id]].id == id
  }

  /**
   * render_spu.contextTable with the contexts it has handed out.  `ctxs` lists every
   * context ever created, in creation order; an index into it stands for a
   * ContextInfo pointer.
   */
  class ContextTable {
    const visuals: VisualTable
    /** render_spu.display_string */
    const displayString: string
    var ctxs: seq<Ctx>
    var table: map<int, nat>

    ghost predicate Valid()
      reads this, visuals
    {
      visuals.Valid() && Linked(ctxs) && Supported(ctxs) && RefsExact(ctxs) && TableOk(table, ctxs)
    }

    constructor (visuals: VisualTable, displayString: string)
      requires visuals.Valid()
      ensures Valid() && this.visuals == visuals && this.displayString == displayString
      ensures ctxs == [] && table == map[]
    {
      this.visuals := visuals;
      this.displayString := displayString;
      ctxs := [];
      table := map[];
    }

    /** renderspuContextRelease; returns the count after the decrement. */
    method Release(p: nat) returns (refs: nat)
      requires p < |ctxs| && Linked(ctxs)
      modifies this`ctxs
      ensures ctxs == ReleaseSpec(old(ctxs), p)
      ensures refs == Dec32(old(ctxs[p].cRefs))
      decreases p, 1
    {
      refs := Dec32(ctxs[p].cRefs);
      ctxs := ctxs[p := ctxs[p].(cRefs := refs)];
      if refs == 0 {
        Terminate(p);
      }
    }

    /** renderspuDestroyContextTerminate: the context is freed and its shared context released. */
    method Terminate(p: nat)
      requires p < |ctxs| && Linked(ctxs)
      modifies this`ctxs
      ensures ctxs == TerminateSpec(old(ctxs), p)
      decreases p, 0
    {
      ctxs := ctxs[p := ctxs[p].(alive := false)];
      if ctxs[p].shared.Some? {
        var _ := Release(ctxs[p].shared.value);
      }
    }

    /**
     * renderspuContextMarkDeletedAndRelease: the id becomes -1 and the table's
     * reference is released.  The context must already be out of the table.
     */
    method MarkDeletedAndRelease(p: nat) returns (refs: nat)
      requires Valid()
      requires p < |ctxs| && ctxs[p].alive && ctxs[p].id != -1
      requires forall id :: id in table ==> table[id] != p
      modifies this`ctxs
      ensures Valid()
      ensures ctxs == ReleaseSpec(old(ctxs)[p := old(ctxs)[p].(id := -1)], p)
      ensures refs + 1 == old(ctxs[p].cRefs)
    {
      ghost var before := ctxs;
      ctxs := ctxs[p := ctxs[p].(id := -1)];
      ReferrersKept(before, ctxs, p);
      assert RefsPending(ctxs, p) by {
        forall x | 0 <= x < |ctxs| && x != p && ctxs[x].alive ensures CountOk(ctxs, x, 0) {
          ReferrersKept(before, ctxs, x);
        }
      }
      ReleaseKeepsCounts(ctxs, p);
      refs := Release(p);
    }

    /**
     * renderspuDestroyContext: the default context and unknown ids are ignored;
     * otherwise the id leaves the table and the context is marked deleted and released.
     */
    method DestroyContext(ctx: int)
      requires Valid()
      modifies this`ctxs, this`table
      ensures Valid()
      ensures ctx == CR_RENDER_DEFAULT_CONTEXT_ID || ctx !in old(table) ==> ctxs == old(ctxs) && table == old(table)
      ensures ctx != CR_RENDER_DEFAULT_CONTEXT_ID && ctx in old(table) ==>
        var p := old(table[ctx]);
        && table == old(table) - {ctx}
        && ctxs == ReleaseSpec(old(ctxs)[p := old(ctxs)[p].(id := -1)], p)
    {
      if ctx == CR_RENDER_DEFAULT_CONTEXT_ID || ctx !in table {
        return;
      }
      var p := table[ctx];
      table := table - {ctx};
      var _ := MarkDeletedAndRelease(p);
    }

    /** The key a new context gets: an explicit positive id, otherwise a key from the allocator. */
    static function NewKey(idCtx: int, allocKey: int): int
    {
      if idCtx <= 0 then allocKey else idCtx
    }

    /** Whether that key may be used: an allocated key must be positive, an explicit one unused. */
    ghost predicate KeyUsable(idCtx: int, allocKey: int)
      reads this
    {
      if idCtx <= 0 then allocKey > 0 else idCtx !in table
    }

    /** The display name the visual lookup gets: render_spu.display_string unless it is empty and a name was given. */
    function DisplayFor(dpyName: Option<string>): string
    {
      if dpyName.None? || |displayString| > 0 then displayString else dpyName.value
    }

    /**
     * renderspuCreateContextInternal.  `allocKey` is what crHashtableAllocKeys
     * returns (an unused key, or 0 when it fails), `initOk` what
     * renderspu_SystemInitVisual answers should a visual be created, and `createOk`
     * what renderspu_SystemCreateContext answers.  The result is the new context.
     */
    method CreateContextInternal(dpyName: Option<string>, visBits: bv32, idCtx: int, shared: Option<nat>,
                                 allocKey: int, initOk: bool, createOk: bool) returns (r: Option<nat>)
      requires Valid()
      requires allocKey > 0 ==> allocKey !in table
      requires shared.Some? ==> shared.value < |ctxs| && ctxs[shared.value].alive
      modifies this`ctxs, this`table, visuals`numVisuals, visuals.visuals
      ensures Valid()
      ensures !old(KeyUsable(idCtx, allocKey)) ==> r.None? && unchanged(this) && unchanged(visuals) && unchanged(visuals.visuals)
      ensures old(KeyUsable(idCtx, allocKey)) ==>
        var found := FindSpec(old(visuals.Entries()), visuals.visuals.Length, DisplayFor(dpyName), visBits, visuals.glx, initOk);
        && visuals.Entries() == found.0
        && (r.Some? <==> found.1.Some? && createOk)
      ensures r.None? ==> ctxs == old(ctxs) && table == old(table)
      ensures r.Some? ==>
        var key := NewKey(idCtx, allocKey);
        && r.value == |old(ctxs)|
        && ctxs == AddContext(old(ctxs), Ctx(key, 1, shared, visBits, true))
        && table == old(table)[key := r.value]
    {
      var id := NewKey(idCtx, allocKey);
      if idCtx <= 0 {
        if id <= 0 {
          return None;
        }
      } else if idCtx in table {
        return None;
      }
      var vis := visuals.FindVisual(Some(DisplayFor(dpyName)), visBits, initOk);
      if vis.None? || !createOk {
        return None;
      }
      r := Insert(Ctx(id, 1, shared, visuals.visuals[vis.value].visAttribs, true));
    }

    /** The new context joins the list and the table under its id; its shared context gains a reference. */
    method Insert(c: Ctx) returns (r: Option<nat>)
      requires Valid()
      requires c.id > 0 && c.id !in table && c.cRefs == 1 && c.alive
      requires c.shared.Some? ==> c.shared.value < |ctxs| && ctxs[c.shared.value].alive
      modifies this`ctxs, this`table
      ensures Valid()
      ensures r == Some(|old(ctxs)|) && ctxs == AddContext(old(ctxs), c) && table == old(table)[c.id := |old(ctxs)|]
    {
      AddKeepsCounts(ctxs, c);
      ctxs := AddContext(ctxs, c);
      table := table[c.id := |ctxs| - 1];
      r := Some(|ctxs| - 1);
    }

    /**
     * renderspuCreateContextEx: the shared context is looked up by its id (an
     * unknown id shares nothing); the answer is the new context's id, or -1.
     */
    method CreateContextEx(dpyName: Option<string>, visBits: bv32, id: int, shareCtx: int,
                           allocKey: int, initOk: bool, createOk: bool) returns (r: int)
      requires Valid()
      requires allocKey > 0 ==> allocKey !in table
      modifies this`ctxs, this`table, visuals`numVisuals, visuals.visuals
      ensures Valid()
      ensures r == -1 || (r == NewKey(id, allocKey) && r in table && r !in old(table) && ctxs[table[r]].cRefs == 1)
      ensures r == -1 <==> ctxs == old(ctxs)
      ensures r != -1 && shareCtx != 0 && shareCtx in old(table) ==>
        var q := old(table[shareCtx]);
        ctxs[table[r]].shared == Some(q) && ctxs[q].cRefs == old(ctxs[q].cRefs) + 1
    {
      var shared: Option<nat> := None;
      if shareCtx != 0 && shareCtx in table {
        shared := Some(table[shareCtx]);
      }
      var c := CreateContextInternal(dpyName, visBits, id, shared, allocKey, initOk, createOk);
      if c.Some? {
        r := ctxs[c.value].id;
      } else {
        r := -1;
      }
    }
  }

  // ---------------------------------------------------------------------------
  // Windows: size and visibility change the window system only on a real change
  // ---------------------------------------------------------------------------

  /** A call into the window system (renderspu_SystemWindowSize / renderspu_SystemShowWindow). */
  datatype WindowCall = SystemWindowSize(w: int, h: int) | SystemShowWindow(visible: bool)

  /**
   * What a WindowInfo holds that size and show updates touch: BltInfo's width and
   * height, the visible flag, whether compositor data is set, and the system
   * calls made so far.
   */
  datatype WindowState = WindowState(width: int, height: int, visible: bool, hasCompositor: bool, calls: seq<WindowCall>)

  /** renderspuWindowSize on a known window. */
  function Resized(s: WindowState, w: int, h: int): (r: WindowState)
    ensures r.width == w && r.height == h && r.visible == s.visible
    ensures r == s <==> s.width == w && s.height == h
    ensures r != s ==> !r.hasCompositor && r.calls == s.calls + [SystemWindowSize(w, h)]
  {
    if w != s.width || h != s.height then
      s.(width := w, height := h, hasCompositor := false, calls := s.calls + [SystemWindowSize(w, h)])
    else s
  }

  /** renderspuWindowShow on a known window: a native window is shown as hidden. */
  function Shown(s: WindowState, nativeWindow: bool, flag: int): (r: WindowState)
    ensures r.visible <==> !nativeWindow && flag != 0
    ensures r.width == s.width && r.height == s.height && r.hasCompositor == s.hasCompositor
    ensures r == s <==> s.visible == r.visible
    ensures r != s ==> r.calls == s.calls + [SystemShowWindow(r.visible)]
  {
    var visible := !nativeWindow && flag != 0;
    if s.visible != visible then
      s.(visible := visible, calls := s.calls + [SystemShowWindow(visible)])
    else s
  }

  /** Resizing twice to the same size makes the window system see one call. */
  lemma ResizedIdempotent(s: WindowState, w: int, h: int)
    ensures Resized(Resized(s, w, h), w, h) == Resized(s, w, h)
    ensures |Resized(s, w, h).calls| <= |s.calls| + 1
  {
  }

  /** Showing twice with the same flag makes the window system see one call. */
  lemma ShownIdempotent(s: WindowState, nativeWindow: bool, flag: int)
    ensures Shown(Shown(s, nativeWindow, flag), nativeWindow, flag) == Shown(s, nativeWindow, flag)
    ensures |Shown(s, nativeWindow, flag).calls| <= |s.calls| + 1
  {
  }

  /**
   * No sequence of show requests makes a native window visible: any non-empty
   * sequence acts as one hide request, whatever the flags.
   */
  lemma {:induction false} NativeNeverShown(s: WindowState, flags: seq<int>)
    ensures flags != [] ==> !ShowAll(s, true, flags).visible
    ensures ShowAll(s, true, flags) == if flags == [] then s else Shown(s, true, 0)
    decreases |flags|
  {
    if flags != [] {
      NativeNeverShown(Shown(s, true, flags[0]), flags[1..]);
    }
  }

  /** Showing with each flag in turn. */
  function ShowAll(s: WindowState, nativeWindow: bool, flags: seq<int>): WindowState
    decreases |flags|
  {
    if flags == [] then s else ShowAll(Shown(s, nativeWindow, flags[0]), nativeWindow, flags[1..])
  }

  /** A WindowInfo, updated in place by the size and show requests. */
  class Window {
    const nativeWindow: bool
    var width: int
    var height: int
    var visible: bool
    var hasCompositor: bool
    var calls: seq<WindowCall>

    function State(): WindowState
      reads this
    {
      WindowState(width, height, visible, hasCompositor, calls)
    }

    constructor (nativeWindow: bool, width: int, height: int)
      ensures this.nativeWindow == nativeWindow
      ensures State() == WindowState(width, height, false, false, [])
    {
      this.nativeWindow := nativeWindow;
      this.width := width;
      this.height := height;
      visible := false;
      hasCompositor := false;
      calls := [];
    }

    /** The body of renderspuWindowSize once the window is found. */
    method Size(w: int, h: int)
      modifies this
      ensures State() == Resized(old(State()), w, h)
    {
      if w != width || h != height {
        hasCompositor := false;
        calls := calls + [SystemWindowSize(w, h)];
        width := w;
        height := h;
      }
    }

    /** The body of renderspuWindowShow once the window is found. */
    method Show(flag: int)
      modifies this
      ensures State() == Shown(old(State()), nativeWindow, flag)
    {
      var f := flag;
      if nativeWindow {
        f := 0;
      }
      var vis := f != 0;
      if visible != vis {
        calls := calls + [SystemShowWindow(vis)];
        visible := vis;
      }
    }
  }

  /** render_spu.windowTable: an unknown window id makes size and show requests no-ops. */
  class WindowTable {
    var windows: map<int, Window>

    constructor ()
      ensures windows == map[]
    {
      windows := map[];
    }

    /** renderspuWindowSize. */
    method WindowSize(win: int, w: int, h: int)
      modifies if win in windows then {windows[win]} else {}
      ensures win in windows ==> windows[win].State() == Resized(old(windows[win].State()), w, h)
    {
      if win in windows {
        windows[win].Size(w, h);
      }
    }

    /** renderspuWindowShow. */
    method WindowShow(win: int, flag: int)
      modifies if win in windows then {windows[win]} else {}
      ensures win in windows ==> windows[win].State() == Shown(old(windows[win].State()), windows[win].nativeWindow, flag)
    {
      if win in windows {
        windows[win].Show(flag);
      }
    }
  }

  // ---------------------------------------------------------------------------
  // Barriers: the first creation of a name wins
  // ---------------------------------------------------------------------------

  /** What renderspuBarrierCreateCR did; CountMismatch is where the source raises crError. */
  datatype BarrierOutcome = Ignored | Created | Reused | CountMismatch

  /** renderspuBarrierCreateCR on render_spu.barrierHash (name to count). */
  function CreateBarrier(barriers: map<nat, nat>, ignorePapi: bool, name: nat, count: nat): (r: (map<nat, nat>, BarrierOutcome))
    ensures r.1 == Created <==> !ignorePapi && name !in barriers
    ensures r.1 == Created ==> r.0 == barriers[name := count]
    ensures r.1 != Created ==> r.0 == barriers
    ensures r.1 == CountMismatch <==> !ignorePapi && name in barriers && barriers[name] != count
    ensures r.1 == Ignored <==> ignorePapi
  {
    if ignorePapi then (barriers, Ignored)
    else if name in barriers then
      (barriers, if barriers[name] != count then CountMismatch else Reused)
    else (barriers[name := count], Created)
  }

  /** Re-creating a barrier keeps the first count, and agrees exactly when the counts match. */
  lemma RecreateBarrier(barriers: map<nat, nat>, name: nat, first: nat, second: nat)
    ensures var once := CreateBarrier(barriers, false, name, first).0;
      var twice := CreateBarrier(once, false, name, second);
      && twice.0 == once
      && once[name] == (if name in barriers then barriers[name] else first)
      && (twice.1 == Reused <==> once[name] == second)
  {
  }

  /** The barrier table of the render SPU. */
  class Barriers {
    const ignorePapi: bool
    var barriers: map<nat, nat>

    constructor (ignorePapi: bool)
      ensures this.ignorePapi == ignorePapi && barriers == map[]
    {
      this.ignorePapi := ignorePapi;
      barriers := map[];
    }

    /** renderspuBarrierCreateCR. */
    method Create(name: nat, count: nat) returns (outcome: BarrierOutcome)
      modifies this`barriers
      ensures (barriers, outcome) == CreateBarrier(old(barriers), ignorePapi, name, count)
    {
      if ignorePapi {
        return Ignored;
      }
      if name in barriers {
        if barriers[name] != count {
          outcome := CountMismatch;
        } else {
          outcome := Reused;
        }
      } else {
        barriers := barriers[name := count];
        outcome := Created;
      }
    }
  }
}
