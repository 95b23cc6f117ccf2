/** The annotation file format: one line `<file> 1 <x> <y> <w> <h> \n` per
    annotated frame, in the order the frames were annotated (the class id is
    always 1). A parser is given as the format's partner, to show that each
    line determines its annotation. */
module Annotations {
  import opened Geometry
  import opened Matches

  /** A frame reference together with its clipped box. */
  datatype Annotation = Annotation(file: string, box: Box)

  /** The class id written on every line. */
  const CLASS_ID: int := 1

  predicate IsDigit(c: char) { '0' <= c <= '9' }

  predicate AllDigits(s: string) { forall i :: 0 <= i < |s| ==> IsDigit(s[i]) }

  function DigitChar(d: nat): (c: char)
    requires d < 10
    ensures IsDigit(c) && c as int - '0' as int == d
  {
    (d + '0' as int) as char
  }

  /** Decimal digits of a natural number, most significant first, no leading zeros. */
  function NatToString(n: nat): (s: string)
    ensures |s| > 0 && AllDigits(s)
    ensures n > 0 ==> s[0] != '0'
  {
    if n < 10 then [DigitChar(n)] else NatToString(n / 10) + [DigitChar(n % 10)]
  }

  /** `%i` formatting: an optional minus sign followed by the digits. */
  function IntToString(i: int): string {
    if i < 0 then "-" + NatToString(-i) else NatToString(i)
  }

  function ParseNat(s: string): nat
    requires AllDigits(s)
  {
    if |s| == 0 then 0 else ParseNat(s[..|s| - 1]) * 10 + (s[|s| - 1] as int - '0' as int)
  }

  function ParseInt(s: string): Option<int> {
    if |s| > 1 && s[0] == '-' && AllDigits(s[1..]) then Some(0 - ParseNat(s[1..]) as int)
    else if |s| > 0 && AllDigits(s) then Some(ParseNat(s))
    else None
  }

  lemma {:induction false} NatRoundTrip(n: nat)
    ensures ParseNat(NatToString(n)) == n
  {
    if n >= 10 {
      var s := NatToString(n);
      NatRoundTrip(n / 10);
      assert s[..|s| - 1] == NatToString(n / 10);
    }
  }

  /** Every integer reads back from its `%i` form. */
  lemma IntRoundTrip(i: int)
    ensures ParseInt(IntToString(i)) == Some(i)
  {
    if i < 0 {
      var s := IntToString(i);
      assert s[1..] == NatToString(-i);
      NatRoundTrip(-i);
    } else {
      NatRoundTrip(i);
    }
  }

  lemma NoSpaceInInt(i: int)
    ensures ' ' !in IntToString(i) && '\n' !in IntToString(i)
  {
    var s := IntToString(i);
    if i < 0 {
      assert s == "-" + NatToString(-i);
      assert forall k :: 1 <= k < |s| ==> s[k] == NatToString(-i)[k - 1];
    }
  }

  /** One line of the annotation file. */
  function Line(a: Annotation): string {
    a.file + " " + IntToString(CLASS_ID) + " " + IntToString(a.box.x) + " " + IntToString(a.box.y)
    + " " + IntToString(a.box.w) + " " + IntToString(a.box.h) + " \n"
  }

  /** The text written for a list of annotations: their lines, in order. */
  function Text(anns: seq<Annotation>): string {
    if |anns| == 0 then [] else Text(anns[..|anns| - 1]) + Line(anns[|anns| - 1])
  }

  /** Splits a string at its last space into what precedes and what follows it. */
  function SplitLast(s: string): Option<(string, string)> {
    if |s| == 0 then None
    else if s[|s| - 1] == ' ' then Some((s[..|s| - 1], ""))
    else match SplitLast(s[..|s| - 1])
      case None => None
      case Some(pt) => Some((pt.0, pt.1 + [s[|s| - 1]]))
  }

  lemma {:induction false} SplitLastJoin(a: string, b: string)
    requires ' ' !in b
    ensures SplitLast(a + " " + b) == Some((a, b))
  {
    if |b| > 0 {
      var s := a + " " + b;
      var b' := b[..|b| - 1];
      assert s[..|s| - 1] == a + " " + b';
      SplitLastJoin(a, b');
      assert b' + [b[|b| - 1]] == b;
    } else {
      assert (a + " " + b)[..|a|] == a;
    }
  }

  /** Reads one line back: the file name is everything before the last five
      space-separated fields, so a file name may itself contain spaces. */
  function ParseLine(line: string): Option<Annotation> {
    if |line| < 2 || line[|line| - 2..] != " \n" then None
    else
      var hs :- SplitLast(line[..|line| - 2]);
      var ws :- SplitLast(hs.0);
      var ys :- SplitLast(ws.0);
      var xs :- SplitLast(ys.0);
      var cs :- SplitLast(xs.0);
      var c :- ParseInt(cs.1);
      var x :- ParseInt(xs.1);
      var y :- ParseInt(ys.1);
      var w :- ParseInt(ws.1);
      var h :- ParseInt(hs.1);
      if c != CLASS_ID then None else Some(Annotation(cs.0, Box(x, y, w, h)))
  }

  /** Each line determines its annotation: parsing a formatted line gives back
      the file name and the box. */
  lemma LineRoundTrip(a: Annotation)
    ensures ParseLine(Line(a)) == Some(a)
  {
    var c, x, y := IntToString(CLASS_ID), IntToString(a.box.x), IntToString(a.box.y);
    var w, h := IntToString(a.box.w), IntToString(a.box.h);
    NoSpaceInInt(CLASS_ID); NoSpaceInInt(a.box.x); NoSpaceInInt(a.box.y);
    NoSpaceInInt(a.box.w); NoSpaceInInt(a.box.h);
    IntRoundTrip(CLASS_ID); IntRoundTrip(a.box.x); IntRoundTrip(a.box.y);
    IntRoundTrip(a.box.w); IntRoundTrip(a.box.h);
    var p1 := a.file + " " + c;
    var p2 := p1 + " " + x;
    var p3 := p2 + " " + y;
    var p4 := p3 + " " + w;
    var body := p4 + " " + h;
    var line := Line(a);
    assert line == body + " \n";
    assert line[..|line| - 2] == body;
    assert line[|line| - 2..] == " \n";
    SplitLastJoin(p4, h);
    SplitLastJoin(p3, w);
    SplitLastJoin(p2, y);
    SplitLastJoin(p1, x);
    SplitLastJoin(a.file, c);
  }

  function Occurrences(c: char, s: string): nat {
    if |s| == 0 then 0 else Occurrences(c, s[..|s| - 1]) + (if s[|s| - 1] == c then 1 else 0)
  }

  lemma {:induction false} OccurrencesConcat(c: char, s: string, t: string)
    ensures Occurrences(c, s + t) == Occurrences(c, s) + Occurrences(c, t)
  {
    if |t| > 0 {
      var t' := t[..|t| - 1];
      assert (s + t)[..|s + t| - 1] == s + t';
      OccurrencesConcat(c, s, t');
    } else {
      assert s + t == s;
    }
  }

  lemma {:induction false} OccurrencesAbsent(c: char, s: string)
    requires c !in s
    ensures Occurrences(c, s) == 0
  {
    if |s| > 0 {
      OccurrencesAbsent(c, s[..|s| - 1]);
    }
  }

  /** A line holds exactly one newline, at its end, when the file name holds none. */
  lemma LineHasOneNewline(a: Annotation)
    requires '\n' !in a.file
    ensures Occurrences('\n', Line(a)) == 1
    ensures Line(a)[|Line(a)| - 1] == '\n'
  {
    var c, x, y := IntToString(CLASS_ID), IntToString(a.box.x), IntToString(a.box.y);
    var w, h := IntToString(a.box.w), IntToString(a.box.h);
    NoSpaceInInt(CLASS_ID); NoSpaceInInt(a.box.x); NoSpaceInInt(a.box.y);
    NoSpaceInInt(a.box.w); NoSpaceInInt(a.box.h);
    var p1 := a.file + " " + c;
    var p2 := p1 + " " + x;
    var p3 := p2 + " " + y;
    var p4 := p3 + " " + w;
    var body := p4 + " " + h + " ";
    assert '\n' !in p1;
    assert '\n' !in p2;
    assert '\n' !in p3;
    assert '\n' !in p4;
    assert '\n' !in body;
    assert Line(a) == body + "\n";
    OccurrencesAbsent('\n', body);
    OccurrencesConcat('\n', body, "\n");
  }

  /** The text has one line per annotation, in order. */
  lemma {:induction false} TextLines(anns: seq<Annotation>)
    requires forall i :: 0 <= i < |anns| ==> '\n' !in anns[i].file
    ensures Occurrences('\n', Text(anns)) == |anns|
  {
    if |anns| > 0 {
      var init := anns[..|anns| - 1];
      TextLines(init);
      LineHasOneNewline(anns[|anns| - 1]);
      OccurrencesConcat('\n', Text(init), Line(anns[|anns| - 1]));
    }
  }
}
