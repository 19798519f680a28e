/** `full_katakana_to_half_katakana` of the graphics crate: full-width
    katakana are replaced, grapheme by grapheme, by their half-width forms so
    that the display's JIS X 0201 fonts can draw them. */
module Katakana {
  import opened Common

  /** An extended grapheme cluster. */
  type Grapheme = string

  /** The full-width table string of `full_katakana_to_half_katakana` (63 characters): the
      punctuation 。「」、・, ヲ, the small kana ァィゥェォャュョッ, ー,
      ア to ン in gojūon order, and the spacing sound marks ゛゜. */
  const FULL_KATAKANA: string :=
    "。「」、・ヲァィゥェ" + "ォャュョッーアイウエ" + "オカキクケコサシスセ" + "ソタチツテトナニヌネ"
    + "ノハヒフヘホマミムメ" + "モヤユヨラリルレロワ" + "ン" + "゛゜"

  /** The half-width table string of `full_katakana_to_half_katakana`: the 63 characters of the
      Halfwidth Katakana block, U+FF61 (｡) up to U+FF9F (ﾟ), in code-point
      order; position k corresponds to position k of FULL_KATAKANA. */
  function HalfKatakana(): string {
    seq(63, i requires 0 <= i < 63 => (0xFF61 + i) as char)
  }

  /** Each character of a string as a grapheme of its own. */
  function Singletons(s: string): (r: seq<Grapheme>)
    ensures |r| == |s| && forall i :: 0 <= i < |s| ==> r[i] == [s[i]]
  {
    seq(|s|, i requires 0 <= i < |s| => [s[i]])
  }

  /** The tables by character, as the lookup is meant to use them. */
  const FULL_TABLE: seq<Grapheme> := Singletons(FULL_KATAKANA)
  const HALF_TABLE: seq<Grapheme> := Singletons(HalfKatakana())

  predicate IsAscii(g: Grapheme) {
    forall i :: 0 <= i < |g| ==> g[i] as int < 128
  }

  predicate Distinct(table: seq<Grapheme>) {
    forall i, j :: 0 <= i < j < |table| ==> table[i] != table[j]
  }

  /** The first position of `g` in `table`, if any (`find_map` over the
      enumerated table). */
  function FindIndex(table: seq<Grapheme>, g: Grapheme): (r: Option<nat>)
    ensures r.None? <==> g !in table
    ensures r.Some? ==> r.value < |table| && table[r.value] == g
    ensures r.Some? ==> forall j :: 0 <= j < r.value ==> table[j] != g
    decreases |table|
  {
    if table == [] then None
    else if table[0] == g then Some(0)
    else
      match FindIndex(table[1..], g)
      case Some(k) => Some(k + 1)
      case None => None
  }

  /** The per-grapheme step of the normaliser over a given pair of tables.
      `None` is the out-of-bounds panic of `katakana_half[index]` when the
      half table is shorter than the full one. */
  function LookupGrapheme(full: seq<Grapheme>, half: seq<Grapheme>, g: Grapheme): (r: Option<Grapheme>)
    ensures |full| == |half| ==> r.Some?
    ensures IsAscii(g) ==> r == Some(g)
    ensures !IsAscii(g) && g !in full ==> r == Some(g)
    ensures !IsAscii(g) && g in full ==>
              var k := FindIndex(full, g).value;
              r == if k < |half| then Some(half[k]) else None
  {
    if IsAscii(g) then
      // ASCII is returned without searching the table
      Some(g)
    else
      match FindIndex(full, g)
      case Some(k) => if k < |half| then Some(half[k]) else None
      case None => Some(g)
  }

  /** The normaliser's map over a grapheme sequence, for tables of equal length. */
  function NormalizeGraphemes(full: seq<Grapheme>, half: seq<Grapheme>, gs: seq<Grapheme>): (r: seq<Grapheme>)
    requires |full| == |half|
    ensures |r| == |gs|
    ensures forall i :: 0 <= i < |gs| ==> Some(r[i]) == LookupGrapheme(full, half, gs[i])
    decreases |gs|
  {
    if gs == [] then []
    else [LookupGrapheme(full, half, gs[0]).value] + NormalizeGraphemes(full, half, gs[1..])
  }

  /** The fold that pushes every grapheme onto one string. */
  function Concat(gs: seq<Grapheme>): string
    decreases |gs|
  {
    if gs == [] then [] else gs[0] + Concat(gs[1..])
  }

  /** ASCII graphemes pass through the normaliser untouched. */
  lemma {:induction false} NormalizeAscii(gs: seq<Grapheme>)
    requires forall j :: 0 <= j < |gs| ==> IsAscii(gs[j])
    ensures NormalizeGraphemes(FULL_TABLE, HALF_TABLE, gs) == gs
    decreases |gs|
  {
    TablesAligned();
    if gs != [] {
      NormalizeAscii(gs[1..]);
      assert NormalizeGraphemes(FULL_TABLE, HALF_TABLE, gs)[1..] == NormalizeGraphemes(FULL_TABLE, HALF_TABLE, gs[1..]);
    }
  }

  /** `full_katakana_to_half_katakana`, on the grapheme segmentation of its
      input: text made only of ASCII comes back as it was. */
  function FullToHalf(gs: seq<Grapheme>): (r: string)
    ensures (forall i :: 0 <= i < |gs| ==> IsAscii(gs[i])) ==> r == Concat(gs)
  {
    assert (forall i :: 0 <= i < |gs| ==> IsAscii(gs[i])) ==> NormalizeGraphemes(FULL_TABLE, HALF_TABLE, gs) == gs by {
      if forall i :: 0 <= i < |gs| ==> IsAscii(gs[i]) {
        NormalizeAscii(gs);
      }
    }
    Concat(NormalizeGraphemes(FULL_TABLE, HALF_TABLE, gs))
  }

  /** A single grapheme: a table glyph becomes the half-width glyph at its
      position, any other grapheme is kept. */
  lemma FullToHalfGrapheme(g: Grapheme)
    ensures g in FULL_TABLE ==> FullToHalf([g]) == HALF_TABLE[FindIndex(FULL_TABLE, g).value]
    ensures g !in FULL_TABLE ==> FullToHalf([g]) == g
  {
    TablesAligned();
    if g in FULL_TABLE {
      FullTableNotAscii(FindIndex(FULL_TABLE, g).value);
    }
    assert Concat([LookupGrapheme(FULL_TABLE, HALF_TABLE, g).value]) == LookupGrapheme(FULL_TABLE, HALF_TABLE, g).value + Concat([]);
  }

  /** The fold concatenates: folding two runs is folding each. */
  lemma {:induction false} ConcatAppend(a: seq<Grapheme>, b: seq<Grapheme>)
    ensures Concat(a + b) == Concat(a) + Concat(b)
    decreases |a|
  {
    if a == [] {
      assert a + b == b;
    } else {
      assert (a + b)[0] == a[0];
      assert (a + b)[1..] == a[1..] + b;
      ConcatAppend(a[1..], b);
    }
  }

  /** The normaliser works grapheme by grapheme: normalising two runs of
      graphemes one after the other is normalising their concatenation. */
  lemma FullToHalfAppend(a: seq<Grapheme>, b: seq<Grapheme>)
    ensures FullToHalf(a + b) == FullToHalf(a) + FullToHalf(b)
  {
    TablesAligned();
    var na := NormalizeGraphemes(FULL_TABLE, HALF_TABLE, a);
    var nb := NormalizeGraphemes(FULL_TABLE, HALF_TABLE, b);
    var nab := NormalizeGraphemes(FULL_TABLE, HALF_TABLE, a + b);
    assert nab == na + nb by {
      forall i | 0 <= i < |nab| ensures nab[i] == (na + nb)[i] {
        if i < |a| {
          assert (a + b)[i] == a[i];
        } else {
          assert (a + b)[i] == b[i - |a|];
        }
      }
    }
    ConcatAppend(na, nb);
  }

  /** `Vec::join`: the parts with `sep` between neighbours. */
  function Join(parts: seq<string>, sep: string): (r: string)
    ensures parts == [] ==> r == []
    ensures |parts| == 1 ==> r == parts[0]
    ensures |parts| >= 2 ==> parts[0] + sep <= r
    decreases |parts|
  {
    if parts == [] then []
    else if |parts| == 1 then parts[0]
    else parts[0] + sep + Join(parts[1..], sep)
  }

  /** Joining two non-empty runs of parts is joining each and putting one
      separator between them. */
  lemma {:induction false} JoinAppend(a: seq<string>, b: seq<string>, sep: string)
    requires a != [] && b != []
    ensures Join(a + b, sep) == Join(a, sep) + sep + Join(b, sep)
    decreases |a|
  {
    var ab := a + b;
    assert ab[0] == a[0];
    if |a| == 1 {
      assert ab[1..] == b;
    } else {
      assert ab[1..] == a[1..] + b;
      JoinAppend(a[1..], b, sep);
      calc {
        Join(ab, sep);
        a[0] + sep + Join(a[1..] + b, sep);
        a[0] + sep + (Join(a[1..], sep) + sep + Join(b, sep));
        (a[0] + sep + Join(a[1..], sep)) + sep + Join(b, sep);
      }
    }
  }

  /** The by-character tables line up: 63 entries each. */
  lemma TablesAligned()
    ensures |FULL_TABLE| == |HALF_TABLE| == 63
  {
  }

  /** No full-width table entry is ASCII, so none takes the fast path. */
  lemma FullTableNotAscii(k: nat)
    requires k < |FULL_TABLE|
    ensures !IsAscii(FULL_TABLE[k])
  {
    var c := FULL_KATAKANA[k];
    assert c in FULL_KATAKANA;
    assert c in "。「」、・ヲァィゥェ" ==> c as int >= 128;
    assert c in "ォャュョッーアイウエ" ==> c as int >= 128;
    assert c in "オカキクケコサシスセ" ==> c as int >= 128;
    assert c in "ソタチツテトナニヌネ" ==> c as int >= 128;
    assert c in "ノハヒフヘホマミムメ" ==> c as int >= 128;
    assert c in "モヤユヨラリルレロワ" ==> c as int >= 128;
    assert c in "ン" + "゛゜" ==> c as int >= 128;
    assert FULL_TABLE[k][0] == c;
  }

  /** The half-width table has no repeated entry. */
  lemma HalfTableDistinct()
    ensures Distinct(HALF_TABLE)
  {
  }

  /** The inverse lookup: a half-width grapheme back to its full-width form. */
  function HalfToFull(full: seq<Grapheme>, half: seq<Grapheme>, g: Grapheme): Grapheme
    requires |full| == |half|
  {
    match FindIndex(half, g)
    case Some(k) => full[k]
    case None => g
  }

  /** For tables of equal length whose half side has no repeats, every
      non-ASCII full-width entry comes back from the inverse lookup. */
  lemma RoundTrip(full: seq<Grapheme>, half: seq<Grapheme>, g: Grapheme)
    requires |full| == |half| && Distinct(half)
    requires g in full && !IsAscii(g)
    ensures HalfToFull(full, half, LookupGrapheme(full, half, g).value) == g
  {
    var k := FindIndex(full, g).value;
    assert FindIndex(half, half[k]) == Some(k);
  }

  /** Every full-width katakana normalises to its half-width form and back. */
  lemma KatakanaRoundTrip(k: nat)
    requires k < |FULL_TABLE|
    ensures HalfToFull(FULL_TABLE, HALF_TABLE, LookupGrapheme(FULL_TABLE, HALF_TABLE, FULL_TABLE[k]).value) == FULL_TABLE[k]
  {
    FullTableNotAscii(k);
    HalfTableDistinct();
    RoundTrip(FULL_TABLE, HALF_TABLE, FULL_TABLE[k]);
  }

  /** Text made only of table glyphs keeps its length in characters: each
      glyph becomes exactly one half-width character. */
  lemma {:induction false} KatakanaLengthPreserved(gs: seq<Grapheme>)
    requires forall i :: 0 <= i < |gs| ==> gs[i] in FULL_TABLE
    ensures |FullToHalf(gs)| == |gs|
    decreases |gs|
  {
    if gs != [] {
      FullTableNotAscii(FindIndex(FULL_TABLE, gs[0]).value);
      KatakanaLengthPreserved(gs[1..]);
      assert NormalizeGraphemes(FULL_TABLE, HALF_TABLE, gs)[1..] == NormalizeGraphemes(FULL_TABLE, HALF_TABLE, gs[1..]);
    }
  }

  // ---------------------------------------------------------------------
  // The tables `full_katakana_to_half_katakana` builds: `.graphemes(true)` on each string.

  /** Grapheme_Cluster_Break=Extend among the characters of the two tables:
      the half-width voiced and semi-voiced sound marks. The spacing marks
      ゛゜ (U+309B, U+309C) of the full table are not Extend. */
  predicate IsExtend(c: char) {
    c == '\U{FF9E}' || c == '\U{FF9F}'
  }

  /** Length of the run of Extend characters that opens s. */
  function ExtendRun(s: string): (n: nat)
    ensures n <= |s|
    ensures forall i :: 0 <= i < n ==> IsExtend(s[i])
    ensures n < |s| ==> !IsExtend(s[n])
    decreases |s|
  {
    if s != [] && IsExtend(s[0]) then 1 + ExtendRun(s[1..]) else 0
  }

  /** Extended grapheme clusters of a string whose characters are plain or
      Extend (rule GB9: no break before Extend): every cluster is one
      character followed by the Extend characters after it. */
  function SegmentTable(s: string): seq<Grapheme>
    decreases |s|
  {
    if s == [] then []
    else
      var n := 1 + ExtendRun(s[1..]);
      [s[..n]] + SegmentTable(s[n..])
  }

  lemma {:induction false} SegmentPlain(s: string)
    requires forall i :: 0 <= i < |s| ==> !IsExtend(s[i])
    ensures SegmentTable(s) == Singletons(s)
    decreases |s|
  {
    if s != [] {
      assert ExtendRun(s[1..]) == 0;
      assert s[..1] == [s[0]];
      SegmentPlain(s[1..]);
      assert Singletons(s) == [[s[0]]] + Singletons(s[1..]);
    }
  }

  lemma {:induction false} SegmentTrailingMarks(p: string, e: string)
    requires |p| > 0
    requires forall i :: 0 <= i < |p| ==> !IsExtend(p[i])
    requires forall i :: 0 <= i < |e| ==> IsExtend(e[i])
    ensures SegmentTable(p + e) == Singletons(p[..|p| - 1]) + [[p[|p| - 1]] + e]
    decreases |p|
  {
    var s := p + e;
    if |p| == 1 {
      assert s[1..] == e;
      assert s[1 + |e|..] == [];
      assert s[..1 + |e|] == [p[0]] + e;
    } else {
      assert s[1..] == p[1..] + e;
      assert ExtendRun(s[1..]) == 0;
      assert SegmentTable(s) == [s[..1]] + SegmentTable(s[1..]);
      assert s[..1] == [p[0]];
      SegmentTrailingMarks(p[1..], e);
      assert Singletons(p[..|p| - 1]) == [[p[0]]] + Singletons(p[1..][..|p| - 2]);
    }
  }

  /** The full table segments into its 63 characters. */
  lemma FullSegmentation()
    ensures SegmentTable(FULL_KATAKANA) == FULL_TABLE
  {
    assert '\U{FF9E}' !in FULL_KATAKANA && '\U{FF9F}' !in FULL_KATAKANA;
    SegmentPlain(FULL_KATAKANA);
  }

  /** A plain run of k characters followed only by Extend characters
      segments into k graphemes, the last one carrying all the marks. */
  lemma SegmentSplit(s: string, k: nat)
    requires 0 < k <= |s|
    requires forall i :: 0 <= i < k ==> !IsExtend(s[i])
    requires forall i :: k <= i < |s| ==> IsExtend(s[i])
    ensures |SegmentTable(s)| == k
    ensures SegmentTable(s)[k - 1] == s[k - 1..]
    ensures SegmentTable(s)[..k - 1] == Singletons(s[..k - 1])
  {
    var p, e := s[..k], s[k..];
    assert s == p + e;
    SegmentTrailingMarks(p, e);
    assert s[k - 1..] == [p[k - 1]] + e;
    assert p[..k - 1] == s[..k - 1];
  }

  lemma HalfKatakanaAt(i: nat)
    requires i < 63
    ensures |HalfKatakana()| == 63 && HalfKatakana()[i] as int == 0xFF61 + i
  {
  }

  /** The half table segments into only 61 graphemes: the sound marks
      U+FF9E and U+FF9F join the ﾝ before them. */
  lemma HalfPlain(i: nat)
    requires i < 61
    ensures |HalfKatakana()| == 63 && !IsExtend(HalfKatakana()[i])
  {
    HalfKatakanaAt(i);
  }

  lemma HalfMarks()
    ensures |HalfKatakana()| == 63
    ensures HalfKatakana()[60..] == ['\U{FF9D}', '\U{FF9E}', '\U{FF9F}']
  {
    HalfKatakanaAt(60);
    HalfKatakanaAt(61);
    HalfKatakanaAt(62);
  }

  lemma HalfSegmentation(half: string)
    requires half == HalfKatakana()
    ensures |SegmentTable(half)| == 61
    ensures SegmentTable(half)[60] == ['\U{FF9D}', '\U{FF9E}', '\U{FF9F}']
    ensures SegmentTable(half)[..60] == HALF_TABLE[..60]
  {
    forall i | 0 <= i < 61 ensures !IsExtend(half[i]) {
      HalfPlain(i);
    }
    HalfMarks();
    assert forall i :: 61 <= i < |half| ==> IsExtend(half[i]);
    SegmentSplit(half, 61);
    SingletonsPrefix(half, 60);
  }

  /** Taking a prefix commutes with splitting into characters. */
  lemma SingletonsPrefix(s: string, k: nat)
    requires k <= |s|
    ensures Singletons(s[..k]) == Singletons(s)[..k]
  {
  }

  /** In a by-character table, a character that does not occur earlier is
      found at its own position. */
  lemma FindFirstOccurrence(s: string, k: nat)
    requires k < |s| && s[k] !in s[..k]
    ensures FindIndex(Singletons(s), [s[k]]) == Some(k)
  {
    var r := FindIndex(Singletons(s), [s[k]]);
    assert Singletons(s)[k] == [s[k]];
  }

  /** The first sixty characters of the full table: everything before ン. */
  function FullPrefix(): string {
    "。「」、・ヲァィゥェ" + "ォャュョッーアイウエ" + "オカキクケコサシスセ" + "ソタチツテトナニヌネ"
    + "ノハヒフヘホマミムメ" + "モヤユヨラリルレロワ"
  }

  lemma FullSplit()
    ensures FULL_KATAKANA == FullPrefix() + "ン" + "゛゜"
    ensures |FullPrefix()| == 60
    ensures "ン"[0] !in FullPrefix() && "゛"[0] !in FullPrefix()
  {
  }

  /** ン and ゛ sit at positions 60 and 61 of the full table. */
  lemma FullPositions()
    ensures FindIndex(FULL_TABLE, "ン") == Some(60)
    ensures FindIndex(FULL_TABLE, "゛") == Some(61)
  {
    FullSplit();
    assert FULL_KATAKANA[..60] == FullPrefix();
    assert FULL_KATAKANA[..61] == FullPrefix() + "ン";
    FindFirstOccurrence(FULL_KATAKANA, 60);
    FindFirstOccurrence(FULL_KATAKANA, 61);
  }

  /** The normaliser as written, on the segmented tables: ン gains both sound
      marks, and ゛ (full-table position 61) indexes past the end of the
      61-entry half table. */
  lemma SegmentedTablesMisalign()
    ensures var h := SegmentTable(HalfKatakana());
            && LookupGrapheme(SegmentTable(FULL_KATAKANA), h, "ン") == Some("ﾝﾞﾟ")
            && LookupGrapheme(SegmentTable(FULL_KATAKANA), h, "゛") == None
  {
    FullSegmentation();
    HalfSegmentation(HalfKatakana());
    FullPositions();
    assert !IsAscii("ン") && !IsAscii("゛");
    assert "ﾝﾞﾟ" == ['\U{FF9D}', '\U{FF9E}', '\U{FF9F}'];
  }
}
