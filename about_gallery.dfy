/**
 * The "about us" gallery (src/components/AboutUsGallery.tsx): alt text derived
 * from image file names, and the split of the image list into two rows.
 */
module AboutUsGallery {
  import opened JsString

  /** `.replace(/[-_]/g, " ")`: every '-' and '_' becomes a space. */
  function ReplaceSeparators(s: string): (r: string)
    ensures |r| == |s|
    ensures forall i :: 0 <= i < |s| ==> r[i] == (if s[i] == '-' || s[i] == '_' then ' ' else s[i])
  {
    seq(|s|, i requires 0 <= i < |s| => if s[i] == '-' || s[i] == '_' then ' ' else s[i])
  }

  /** `s` ends in '.' followed, from index `k`, by one or more characters none of which is '.'. */
  predicate ExtensionAt(s: string, k: int) {
    0 <= k < |s| - 1 && s[k] == '.' && forall j :: k < j < |s| ==> s[j] != '.'
  }

  /** Index of the last '.' in `s`, or -1 when there is none. */
  function LastDot(s: string): (k: int)
    ensures -1 <= k < |s|
    ensures k >= 0 ==> s[k] == '.'
    ensures forall j :: k < j < |s| ==> s[j] != '.'
  {
    if s == [] then -1
    else if s[|s| - 1] == '.' then |s| - 1
    else LastDot(s[..|s| - 1])
  }

  /**
   * `.replace(/\.[^.]+$/, "")`: the only place that pattern can match is the
   * last '.', and only when some character follows it; that suffix is removed.
   */
  function StripExtension(s: string): (r: string)
    ensures forall k :: ExtensionAt(s, k) ==> r == s[..k]
    ensures (forall k :: !ExtensionAt(s, k)) ==> r == s
  {
    var k := LastDot(s);
    if 0 <= k < |s| - 1 then
      assert ExtensionAt(s, k);
      s[..k]
    else s
  }

  /** No two neighbouring characters are both white space. */
  predicate NoAdjacentWhitespace(s: string) {
    forall i :: 0 <= i < |s| - 1 ==> !(IsWhitespace(s[i]) && IsWhitespace(s[i + 1]))
  }

  /** The characters of `s` other than white space, in order. */
  function NonWhitespace(s: string): string {
    if s == [] then []
    else (if IsWhitespace(s[0]) then [] else [s[0]]) + NonWhitespace(s[1..])
  }

  /**
   * `.replace(/\s+/g, " ")`: every maximal run of white space becomes one
   * space. Read left to right: a white-space character followed by more white
   * space is dropped, the last one of a run becomes " ".
   */
  function CollapseWhitespace(s: string): (r: string)
    ensures r == [] <==> s == []
    ensures r != [] ==> (IsWhitespace(r[0]) <==> IsWhitespace(s[0]))
    ensures NoAdjacentWhitespace(r)
    ensures NonWhitespace(r) == NonWhitespace(s)
    ensures forall i :: 0 <= i < |r| ==> r[i] == ' ' || r[i] in s
    ensures forall i :: 0 <= i < |r| && IsWhitespace(r[i]) ==> r[i] == ' '
    decreases |s|
  {
    if s == [] then []
    else if RunContinues(s) then
      var tail := CollapseWhitespace(s[1..]);
      CharsOfSuffix(tail, s);
      tail
    else
      var c := if IsWhitespace(s[0]) then ' ' else s[0];
      var tail := CollapseWhitespace(s[1..]);
      ConsNonWhitespace(c, tail);
      ConsKeepsNoAdjacentWhitespace(c, tail);
      CharsOfSuffix(tail, s);
      ConsKeepsSpaces(c, tail, s);
      [c] + tail
  }

  /** `s` starts with two white-space characters: the first belongs to a longer run. */
  predicate RunContinues(s: string) {
    |s| > 1 && IsWhitespace(s[0]) && IsWhitespace(s[1])
  }

  /** Characters that come from `s[1..]` come from `s`. */
  lemma CharsOfSuffix(r: string, s: string)
    requires s != []
    requires forall i :: 0 <= i < |r| ==> r[i] == ' ' || r[i] in s[1..]
    ensures forall i :: 0 <= i < |r| ==> r[i] == ' ' || r[i] in s
  {
    forall i | 0 <= i < |r| && r[i] != ' ' ensures r[i] in s {
      var j :| 0 <= j < |s[1..]| && s[1..][j] == r[i];
      assert s[j + 1] == r[i];
    }
  }

  /** Putting `c` (a space, or the first character of `s`) in front keeps every character a space or one of `s`'s, and white space only " ". */
  lemma ConsKeepsSpaces(c: char, tail: string, s: string)
    requires s != [] && (c == ' ' || c == s[0]) && (IsWhitespace(c) ==> c == ' ')
    requires forall i :: 0 <= i < |tail| ==> tail[i] == ' ' || tail[i] in s
    requires forall i :: 0 <= i < |tail| && IsWhitespace(tail[i]) ==> tail[i] == ' '
    ensures forall i :: 0 <= i < |[c] + tail| ==> ([c] + tail)[i] == ' ' || ([c] + tail)[i] in s
    ensures forall i :: 0 <= i < |[c] + tail| && IsWhitespace(([c] + tail)[i]) ==> ([c] + tail)[i] == ' '
  {
    forall i | 0 < i < |[c] + tail| ensures ([c] + tail)[i] == tail[i - 1] {
    }
  }

  /** The collapse keeps white space at the end exactly when the input ends in white space. */
  lemma {:induction false} CollapseKeepsLast(s: string)
    requires s != []
    ensures var r := CollapseWhitespace(s);
      IsWhitespace(r[|r| - 1]) <==> IsWhitespace(s[|s| - 1])
    decreases |s|
  {
    if |s| > 1 {
      CollapseKeepsLast(s[1..]);
      var tail := CollapseWhitespace(s[1..]);
      assert s[1..][|s| - 2] == s[|s| - 1];
      if !RunContinues(s) {
        var c := if IsWhitespace(s[0]) then ' ' else s[0];
        assert CollapseWhitespace(s) == [c] + tail;
        assert ([c] + tail)[|tail|] == tail[|tail| - 1];
      }
    }
  }

  /**
   * The words of `s`: its maximal runs of characters other than white space,
   * in order, as `s.split(/\s+/).filter(w => w !== "")` gives them.
   */
  function Words(s: string): (r: seq<string>)
    ensures s != [] && !IsWhitespace(s[0]) ==> r != []
    decreases |s|
  {
    if s == [] then []
    else if IsWhitespace(s[0]) then Words(s[1..])
    else
      var rest := Words(s[1..]);
      if |s| > 1 && !IsWhitespace(s[1]) then [[s[0]] + rest[0]] + rest[1..]
      else [[s[0]]] + rest
  }

  /** White space in front of `t` adds no word ... */
  lemma WordsConsSpace(c: char, t: string)
    requires IsWhitespace(c)
    ensures Words([c] + t) == Words(t)
  {
    assert ([c] + t)[1..] == t;
  }

  /** ... and a word character in front of `t` starts its first word, or a word of its own. */
  lemma WordsConsWord(c: char, t: string)
    requires !IsWhitespace(c)
    ensures Words([c] + t) == if t != [] && !IsWhitespace(t[0]) then [[c] + Words(t)[0]] + Words(t)[1..] else [[c]] + Words(t)
  {
    assert ([c] + t)[1..] == t;
  }

  /** The collapse keeps every word and only changes the white space between them. */
  lemma {:induction false} CollapseKeepsWords(s: string)
    ensures Words(CollapseWhitespace(s)) == Words(s)
    decreases |s|
  {
    if s != [] {
      CollapseKeepsWords(s[1..]);
      var tail := CollapseWhitespace(s[1..]);
      if RunContinues(s) {
        assert Words(s) == Words(s[1..]);
      } else if IsWhitespace(s[0]) {
        assert CollapseWhitespace(s) == [' '] + tail;
        WordsConsSpace(' ', tail);
      } else {
        assert CollapseWhitespace(s) == [s[0]] + tail;
        WordsConsWord(s[0], tail);
      }
    }
  }

  lemma ConsNonWhitespace(c: char, t: string)
    ensures NonWhitespace([c] + t) == (if IsWhitespace(c) then [] else [c]) + NonWhitespace(t)
  {
    assert ([c] + t)[1..] == t;
  }

  lemma ConsKeepsNoAdjacentWhitespace(c: char, t: string)
    requires NoAdjacentWhitespace(t)
    requires t == [] || !IsWhitespace(c) || !IsWhitespace(t[0])
    ensures NoAdjacentWhitespace([c] + t)
  {
    var u := [c] + t;
    forall i | 0 <= i < |u| - 1 ensures !(IsWhitespace(u[i]) && IsWhitespace(u[i + 1])) {
      if i > 0 {
        assert u[i] == t[i - 1] && u[i + 1] == t[i];
      }
    }
  }

  /** `createAltFromFilename(filename)`. */
  function AltFromFilename(filename: string): string {
    Trim(CollapseWhitespace(StripExtension(ReplaceSeparators(filename))))
  }

  lemma SliceKeepsNoAdjacentWhitespace(s: string, k: int, n: int)
    requires NoAdjacentWhitespace(s) && 0 <= k <= k + n <= |s|
    ensures NoAdjacentWhitespace(s[k..k + n])
  {
    var t := s[k..k + n];
    forall i | 0 <= i < n - 1 ensures !(IsWhitespace(t[i]) && IsWhitespace(t[i + 1])) {
      assert t[i] == s[k + i] && t[i + 1] == s[k + i + 1];
    }
  }

  lemma NoSeparatorsAfterReplace(filename: string)
    ensures '-' !in ReplaceSeparators(filename) && '_' !in ReplaceSeparators(filename)
  {
    var a := ReplaceSeparators(filename);
    forall i | 0 <= i < |a| ensures a[i] != '-' && a[i] != '_' {
    }
  }

  lemma NoSeparatorsAfterStrip(a: string)
    requires '-' !in a && '_' !in a
    ensures '-' !in StripExtension(a) && '_' !in StripExtension(a)
  {
    var k := LastDot(a);
    if 0 <= k < |a| - 1 {
      assert ExtensionAt(a, k);
      assert forall c :: c in a[..k] ==> c in a;
    }
  }

  lemma NoSeparatorsAfterCollapse(b: string)
    requires '-' !in b && '_' !in b
    ensures '-' !in CollapseWhitespace(b) && '_' !in CollapseWhitespace(b)
  {
    var c := CollapseWhitespace(b);
    forall i | 0 <= i < |c| ensures c[i] != '-' && c[i] != '_' {
      assert c[i] == ' ' || c[i] in b;
    }
  }

  lemma TrimKeepsShape(c: string)
    requires '-' !in c && '_' !in c && NoAdjacentWhitespace(c)
    ensures var t := Trim(c);
      '-' !in t && '_' !in t && NoAdjacentWhitespace(t)
  {
    var t := Trim(c);
    TrimPlacement(c);
    var k := |c| - |TrimStart(c)|;
    assert t == c[k..k + |t|];
    SliceKeepsNoAdjacentWhitespace(c, k, |t|);
    SliceKeepsNoSeparators(c, k, |t|);
  }

  lemma SliceKeepsNoSeparators(s: string, k: int, n: int)
    requires '-' !in s && '_' !in s && 0 <= k <= k + n <= |s|
    ensures '-' !in s[k..k + n] && '_' !in s[k..k + n]
  {
    var t := s[k..k + n];
    forall i | 0 <= i < n ensures t[i] != '-' && t[i] != '_' {
      assert t[i] == s[k + i];
    }
  }

  /**
   * The alt text contains no '-' or '_', has no white space at either end
   * and never two white-space characters side by side.
   */
  lemma {:induction false} AltTextShape(filename: string)
    ensures var alt := AltFromFilename(filename);
      && '-' !in alt && '_' !in alt
      && (alt == [] || (!IsWhitespace(alt[0]) && !IsWhitespace(alt[|alt| - 1])))
      && NoAdjacentWhitespace(alt)
  {
    var a := ReplaceSeparators(filename);
    NoSeparatorsAfterReplace(filename);
    var b := StripExtension(a);
    NoSeparatorsAfterStrip(a);
    var c := CollapseWhitespace(b);
    NoSeparatorsAfterCollapse(b);
    TrimKeepsShape(c);
  }

  /** Text whose white space is already single spaces is left alone by the collapse. */
  lemma {:induction false} CollapseKeepsSingleSpaces(s: string)
    requires NoAdjacentWhitespace(s)
    requires forall i :: 0 <= i < |s| && IsWhitespace(s[i]) ==> s[i] == ' '
    ensures CollapseWhitespace(s) == s
    decreases |s|
  {
    if s != [] {
      assert NoAdjacentWhitespace(s[1..]) by {
        forall i | 0 <= i < |s[1..]| - 1 ensures !(IsWhitespace(s[1..][i]) && IsWhitespace(s[1..][i + 1])) {
          assert s[1..][i] == s[i + 1] && s[1..][i + 1] == s[i + 2];
        }
      }
      CollapseKeepsSingleSpaces(s[1..]);
      assert !RunContinues(s);
    }
  }

  /** Text with no white space at its ends is left alone by trim. */
  lemma TrimKeepsTrimmed(s: string)
    requires s != [] && !IsWhitespace(s[0]) && !IsWhitespace(s[|s| - 1])
    ensures Trim(s) == s
  {
  }

  /** Two file names of the gallery and their alt texts. */
  lemma AltTextExampleResize()
    ensures AltFromFilename("1-resize.webp") == "1 resize"
  {
    var f := "1-resize.webp";
    var a := ReplaceSeparators(f);
    assert a == "1 resize.webp";
    var alt := "1 resize";
    assert a[..8] == alt;
    assert forall i :: 0 <= i < |alt| && IsWhitespace(alt[i]) ==> i == 1;
    AltExample(f, a, 8, alt);
  }

  lemma AltTextExampleDigits()
    ensures AltFromFilename("124214125.webp") == "124214125"
  {
    var f := "124214125.webp";
    var a := ReplaceSeparators(f);
    assert a == f;
    var alt := "124214125";
    assert a[..9] == alt;
    assert forall i :: 0 <= i < |alt| ==> !IsWhitespace(alt[i]);
    AltExample(f, a, 9, alt);
  }

  lemma AltTextExampleImg()
    ensures AltFromFilename("IMG-0778-1630x860-1.webp") == "IMG 0778 1630x860 1"
  {
    var f := "IMG-0778-1630x860-1.webp";
    var a := "IMG 0778 1630x860 1.webp";
    var alt := "IMG 0778 1630x860 1";
    ImgReplaced(f, a);
    ImgExtension(a, alt);
    ImgSpacing(alt);
    AltExample(f, a, 19, alt);
  }

  lemma ImgReplaced(f: string, a: string)
    requires f == "IMG-0778-1630x860-1.webp" && a == "IMG 0778 1630x860 1.webp"
    ensures ReplaceSeparators(f) == a
  {
    var r := ReplaceSeparators(f);
    forall i | 0 <= i < |f| ensures r[i] == a[i] {
    }
  }

  lemma ImgExtension(a: string, alt: string)
    requires a == "IMG 0778 1630x860 1.webp" && alt == "IMG 0778 1630x860 1"
    ensures ExtensionAt(a, 19) && a[..19] == alt
  {
  }

  lemma ImgSpacing(alt: string)
    requires alt == "IMG 0778 1630x860 1"
    ensures alt != [] && !IsWhitespace(alt[0]) && !IsWhitespace(alt[|alt| - 1])
    ensures NoAdjacentWhitespace(alt)
    ensures forall i :: 0 <= i < |alt| && IsWhitespace(alt[i]) ==> alt[i] == ' '
  {
    assert forall i :: 0 <= i < |alt| && IsWhitespace(alt[i]) ==> i == 3 || i == 8 || i == 17;
  }

  lemma AltExample(filename: string, replaced: string, dot: int, alt: string)
    requires ReplaceSeparators(filename) == replaced
    requires ExtensionAt(replaced, dot) && replaced[..dot] == alt
    requires alt != [] && !IsWhitespace(alt[0]) && !IsWhitespace(alt[|alt| - 1])
    requires NoAdjacentWhitespace(alt)
    requires forall i :: 0 <= i < |alt| && IsWhitespace(alt[i]) ==> alt[i] == ' '
    ensures AltFromFilename(filename) == alt
  {
    CollapseKeepsSingleSpaces(alt);
    TrimKeepsTrimmed(alt);
  }

  /** `Math.ceil(n / 2)` for a non-negative count. */
  function SplitPoint(n: nat): (k: nat)
    ensures k + k == n || k + k == n + 1
  {
    (n + 1) / 2
  }

  /** `rows`: the first ceil(n/2) images and the rest; together they are the whole list, in order. */
  function Rows<T>(images: seq<T>): (rows: (seq<T>, seq<T>))
    ensures rows.0 + rows.1 == images
    ensures |rows.0| == |rows.1| || |rows.0| == |rows.1| + 1
  {
    var k := SplitPoint(|images|);
    (images[..k], images[k..])
  }
}
