/**
 Reads a PDF file the way sections 7.5 and 7.7 of ISO 32000-1 lay out: from `startxref` at the end to the
 cross-reference table, from its 20-byte entries to the objects, from `/Length` to the stream data, and from the
 trailer through the catalog and the page tree to the page, its box, its content and its image. The reader knows
 nothing of the writer; what the writer writes, it reads back.
 */
module PdfReader {
  import opened Common
  import opened Decimals
  import opened Pdf

  predicate At(s: Bytes, p: nat, pattern: Bytes) {
    p + |pattern| <= |s| && forall k :: 0 <= k < |pattern| ==> s[p + k] == pattern[k]
  }

  /** The first place at or after `p` where the pattern occurs. */
  function FirstIndex(s: Bytes, pattern: Bytes, p: nat): Option<nat>
    decreases |s| - p
  {
    if p > |s| then None
    else if At(s, p, pattern) then Some(p)
    else if p == |s| then None
    else FirstIndex(s, pattern, p + 1)
  }

  function DigitsEnd(s: Bytes, p: nat): (e: nat)
    requires p <= |s|
    ensures p <= e <= |s| && AllDigits(s[p..e])
    decreases |s| - p
  {
    if p < |s| && IsDigit(s[p]) then DigitsEnd(s, p + 1) else p
  }

  function DigitsStart(s: Bytes, e: nat): (b: nat)
    requires e <= |s|
    ensures b <= e && AllDigits(s[b..e])
  {
    if e > 0 && IsDigit(s[e - 1]) then
      var b := DigitsStart(s, e - 1);
      assert s[b..e] == s[b..e - 1] + [s[e - 1]];
      b
    else e
  }

  /** The offset between `startxref` and the end-of-file marker. */
  function ReadStartXref(s: Bytes): Option<nat> {
    if |s| < 6 || !At(s, |s| - 6, "\n%%EOF") then None
    else
      var e := |s| - 6;
      var b := DigitsStart(s, e);
      if b == e || b < 10 || !At(s, b - 10, "startxref\n") then None
      else Some(ParseDigits(s[b..e]))
  }

  /** The offset that entry `i` of the table at `xref` gives for an object in use. */
  function ReadEntry(s: Bytes, xref: nat, i: nat): Option<nat> {
    if !At(s, xref, "xref\n0 ") then None
    else
      var e := DigitsEnd(s, xref + 7);
      var p := e + 1 + 20 * i;
      if !At(s, e, "\n") || p + 20 > |s| || !AllDigits(s[p..p + 10]) || !At(s, p + 10, " 00000 n \n") then None
      else Some(ParseDigits(s[p..p + 10]))
  }

  /** The value of the first `/Length` at or after `p`, and where its digits end. */
  function ReadLength(s: Bytes, p: nat): Option<(nat, nat)> {
    var l := FirstIndex(s, "/Length ", p);
    if l.None? || l.value + 8 > |s| then None
    else
      var e := DigitsEnd(s, l.value + 8);
      Some((ParseDigits(s[l.value + 8..e]), e))
  }

  predicate EndsStream(s: Bytes, p: nat) {
    At(s, p, "endstream") || At(s, p, "\nendstream")
  }

  /** The data of the stream object at `p`: as many bytes after `stream` as its `/Length` says. */
  function ReadStream(s: Bytes, p: nat): Option<Bytes> {
    var length := ReadLength(s, p);
    if length.None? then None
    else
      var d := FirstIndex(s, "stream\n", length.value.1);
      if d.None? || d.value + 7 + length.value.0 > |s| then None
      else
        var rest := d.value + 7 + length.value.0;
        if EndsStream(s, rest) then Some(s[d.value + 7..rest]) else None
  }

  /** Follows the cross-reference table to object `i`, which must announce itself there. */
  function FindObject(s: Bytes, i: nat): Option<nat> {
    var xref := ReadStartXref(s);
    if xref.None? then None
    else
      var p := ReadEntry(s, xref.value, i);
      if p.None? || !At(s, p.value, Decimal(i) + " 0 obj\n") then None else p
  }

  function ReadObjectStream(s: Bytes, i: nat): Option<Bytes> {
    var p := FindObject(s, i);
    if p.None? then None else ReadStream(s, p.value)
  }

  // ----- The document -----

  /** The number after the first `key` at or after `p`, and where its digits end. */
  function ReadField(s: Bytes, p: nat, key: Bytes): Option<(nat, nat)> {
    var l := FirstIndex(s, key, p);
    if l.None? || l.value + |key| > |s| then None
    else
      var b := l.value + |key|;
      var e := DigitsEnd(s, b);
      if e == b then None else Some((ParseDigits(s[b..e]), e))
  }

  /** The object that the first `key` at or after `p` refers to. */
  function ReadReference(s: Bytes, p: nat, key: Bytes): Option<nat> {
    var field := ReadField(s, p, key);
    if field.None? || !At(s, field.value.1, " 0 R") then None else Some(field.value.0)
  }

  /** A number, a separator and another number, at `p`; and where the second one ends. */
  function ReadPair(s: Bytes, p: nat, separator: Bytes): Option<(nat, nat, nat)> {
    if p > |s| then None
    else
      var e := DigitsEnd(s, p);
      if e == p || !At(s, e, separator) then None
      else
        var b := e + |separator|;
        var f := DigitsEnd(s, b);
        if f == b then None else Some((ParseDigits(s[p..e]), ParseDigits(s[b..f]), f))
  }

  /** The page box of the page at `p`: its lower left corner is the origin. */
  function ReadBox(s: Bytes, p: nat): Option<(nat, nat)> {
    var l := FirstIndex(s, "/MediaBox [0 0 ", p);
    if l.None? then None
    else
      var pair := ReadPair(s, l.value + 15, " ");
      if pair.None? || !At(s, pair.value.2, "]") then None else Some((pair.value.0, pair.value.1))
  }

  /** The scale that a content stream gives the unit square of the image that it paints. */
  function ReadMatrix(content: Bytes): Option<(nat, nat)> {
    if !At(content, 0, "q\n") then None
    else
      var pair := ReadPair(content, 2, " 0 0 ");
      if pair.None? || content[pair.value.2..] != " 0 0 cm\n/Im0 Do\nQ\n" then None
      else Some((pair.value.0, pair.value.1))
  }

  /** How many entries the table has, and where the trailer after them starts. */
  function ReadTable(s: Bytes, xref: nat): Option<(nat, nat)> {
    if !At(s, xref, "xref\n0 ") then None
    else
      var e := DigitsEnd(s, xref + 7);
      var n := ParseDigits(s[xref + 7..e]);
      var p := e + 1 + 20 * n;
      if e == xref + 7 || !At(s, e, "\n") || !At(s, e + 1, "0000000000 65535 f \n") || !At(s, p, "trailer\n") then None
      else Some((n, p))
  }

  /** The image data is a JPEG with three colours of eight bits each. */
  predicate IsJpeg(s: Bytes, p: nat) {
    At(s, p, " /ColorSpace /DeviceRGB") && At(s, p + 23, " /BitsPerComponent 8")
    && At(s, p + 43, " /Filter /DCTDecode ")
  }

  /** A document of one page that shows one image, as a viewer finds it. */
  datatype Document = Document(box: (nat, nat), scale: (nat, nat), size: (nat, nat), image: Bytes)

  /** What the page at `page` shows. */
  function ReadPage(s: Bytes, page: nat): Option<Document> {
    var box, contents, image := ReadBox(s, page), ReadReference(s, page, "/Contents "), ReadReference(s, page, "/Im0 ");
    if box.None? || contents.None? || image.None? then None
    else
      var content, data := ReadObjectStream(s, contents.value), ReadObjectStream(s, image.value);
      var at := FindObject(s, image.value);
      if content.None? || data.None? || at.None? then None
      else
        var scale := ReadMatrix(content.value);
        var width, height := ReadField(s, at.value, "/Width "), ReadField(s, at.value, "/Height ");
        if scale.None? || width.None? || height.None? || !IsJpeg(s, height.value.1) then None
        else Some(Document(box.value, scale.value, (width.value.0, height.value.0), data.value))
  }

  /** From the trailer's root to the catalog, the page tree and its one page. */
  function ReadTree(s: Bytes, trailer: nat, entries: nat): Option<nat> {
    var size, root := ReadField(s, trailer, "/Size "), ReadReference(s, trailer, "/Root ");
    if size.None? || size.value.0 != entries || root.None? then None
    else
      var catalog := FindObject(s, root.value);
      if catalog.None? then None
      else
        var pages := ReadReference(s, catalog.value, "/Pages ");
        var tree := if pages.None? then None else FindObject(s, pages.value);
        if tree.None? then None
        else
          var kid, count := ReadReference(s, tree.value, "/Kids ["), ReadField(s, tree.value, "/Count ");
          var page := if kid.None? then None else FindObject(s, kid.value);
          if page.None? || count.None? || count.value.0 != 1 then None
          else if ReadReference(s, page.value, "/Parent ") != pages then None
          else page
  }

  function ReadDocument(s: Bytes): Option<Document> {
    var xref := ReadStartXref(s);
    if !At(s, 0, "%PDF-1.4\n") || xref.None? then None
    else
      var table := ReadTable(s, xref.value);
      var page := if table.None? then None else ReadTree(s, table.value.1, table.value.0);
      if page.None? then None else ReadPage(s, page.value)
  }

  // ----- Reading what stands at a known place -----

  lemma AtPrefix(s: Bytes, p: nat, whole: Bytes, part: Bytes, rest: Bytes)
    requires At(s, p, whole) && whole == part + rest
    ensures At(s, p, part) && At(s, p + |part|, rest)
  {
    forall k | 0 <= k < |part|
      ensures s[p + k] == part[k]
    {
      assert part[k] == whole[k];
    }
    forall k | 0 <= k < |rest|
      ensures s[p + |part| + k] == rest[k]
    {
      assert rest[k] == whole[|part| + k];
    }
  }

  lemma AtIsSlice(s: Bytes, p: nat, pattern: Bytes)
    requires At(s, p, pattern)
    ensures s[p..p + |pattern|] == pattern
  {
  }

  lemma AtSplit(s: Bytes, p: nat, a: Bytes, b: Bytes)
    requires At(s, p, a + b)
    ensures At(s, p, a) && At(s, p + |a|, b)
  {
    AtPrefix(s, p, a + b, a, b);
  }

  lemma AtSplitThree(s: Bytes, p: nat, a: Bytes, b: Bytes, c: Bytes)
    requires At(s, p, a + (b + c))
    ensures At(s, p, a) && At(s, p + |a|, b) && At(s, p + |a| + |b|, c)
  {
    AtSplit(s, p, a, b + c);
    AtSplit(s, p + |a|, b, c);
  }

  lemma AtSplitFour(s: Bytes, p: nat, a: Bytes, b: Bytes, c: Bytes, d: Bytes)
    requires At(s, p, a + (b + (c + d)))
    ensures At(s, p, a) && At(s, p + |a|, b) && At(s, p + |a| + |b|, c) && At(s, p + |a| + |b| + |c|, d)
  {
    AtSplit(s, p, a, b + (c + d));
    AtSplitThree(s, p + |a|, b, c, d);
  }

  lemma {:induction false} DigitsEndAt(s: Bytes, p: nat, digits: string)
    requires At(s, p, digits) && AllDigits(digits)
    requires p + |digits| == |s| || !IsDigit(s[p + |digits|])
    ensures DigitsEnd(s, p) == p + |digits|
    decreases |digits|
  {
    if digits != "" {
      LetterAt(s, p, digits, 0);
      assert digits == digits[..1] + digits[1..];
      AtPrefix(s, p, digits, digits[..1], digits[1..]);
      DigitsEndAt(s, p + 1, digits[1..]);
    }
  }

  lemma {:induction false} DigitsStartAt(s: Bytes, p: nat, digits: string)
    requires At(s, p, digits) && AllDigits(digits)
    requires p == 0 || !IsDigit(s[p - 1])
    ensures DigitsStart(s, p + |digits|) == p
    decreases |digits|
  {
    if digits != "" {
      var n := |digits|;
      LetterAt(s, p, digits, n - 1);
      assert digits == digits[..n - 1] + digits[n - 1..];
      AtPrefix(s, p, digits, digits[..n - 1], digits[n - 1..]);
      DigitsStartAt(s, p, digits[..n - 1]);
    }
  }

  lemma LetterAt(s: Bytes, p: nat, pattern: Bytes, k: nat)
    requires At(s, p, pattern) && k < |pattern|
    ensures s[p + k] == pattern[k]
  {
  }

  /** A pattern is found where it stands when its letter `c` does not occur any earlier. */
  lemma {:induction false} FirstIndexIs(s: Bytes, pattern: Bytes, p: nat, found: nat, k: nat)
    requires p <= found && At(s, found, pattern) && k < |pattern|
    requires forall j :: 0 <= j < k ==> pattern[j] != pattern[k]
    requires forall j :: p <= j < found ==> s[j] != pattern[k]
    ensures FirstIndex(s, pattern, p) == Some(found)
    decreases found - p
  {
    if p < found {
      if At(s, p, pattern) {
        LetterAt(s, p, pattern, k);
        if p + k >= found {
          LetterAt(s, found, pattern, p + k - found);
        }
        assert false;
      }
      FirstIndexIs(s, pattern, p + 1, found, k);
    }
  }

  // ----- Stream objects -----

  predicate Lacks(s: Bytes, c: char) { forall j :: 0 <= j < |s| ==> s[j] != c }

  /** A dictionary start that does not mention a capital L before its length entry. */
  predicate NoLetterL(dictionary: Bytes) { Lacks(dictionary, 'L') }

  /** Where the parts of a stream object stand. */
  lemma StreamParts(s: Bytes, p: nat, dictionary: Bytes, data: Bytes, closing: Bytes)
    requires At(s, p, StreamObject(dictionary, data, closing))
    ensures var l := p + |dictionary|;
            var e := l + 8 + |Decimal(|data|)|;
            && At(s, p, dictionary) && At(s, l, LENGTH) && At(s, l + 8, Decimal(|data|)) && At(s, e, CLOSE_DICTIONARY)
            && At(s, e + 4, STREAM) && At(s, e + 11, data) && At(s, e + 11 + |data|, closing)
  {
    var stream := CLOSE_DICTIONARY + (STREAM + (data + closing));
    AtSplitFour(s, p, dictionary, LENGTH, Decimal(|data|), stream);
    AtSplitFour(s, p + |dictionary| + 8 + |Decimal(|data|)|, CLOSE_DICTIONARY, STREAM, data, closing);
  }

  lemma LengthFound(s: Bytes, p: nat, dictionary: Bytes)
    requires At(s, p, dictionary) && NoLetterL(dictionary) && At(s, p + |dictionary|, LENGTH)
    ensures FirstIndex(s, LENGTH, p) == Some(p + |dictionary|)
  {
    forall j | p <= j < p + |dictionary|
      ensures s[j] != 'L'
    {
      LetterAt(s, p, dictionary, j - p);
    }
    FirstIndexIs(s, LENGTH, p, p + |dictionary|, 1);
  }

  lemma NumberAt(s: Bytes, p: nat, n: nat)
    requires At(s, p, Decimal(n)) && At(s, p + |Decimal(n)|, CLOSE_DICTIONARY)
    ensures DigitsEnd(s, p) == p + |Decimal(n)| && ParseDigits(s[p..p + |Decimal(n)|]) == n
  {
    LetterAt(s, p + |Decimal(n)|, CLOSE_DICTIONARY, 0);
    DigitsEndAt(s, p, Decimal(n));
    AtIsSlice(s, p, Decimal(n));
    ParseDecimal(n);
  }

  lemma ReadLengthOf(s: Bytes, p: nat, dictionary: Bytes, n: nat)
    requires At(s, p, dictionary) && NoLetterL(dictionary)
    requires var l := p + |dictionary|;
             At(s, l, LENGTH) && At(s, l + 8, Decimal(n)) && At(s, l + 8 + |Decimal(n)|, CLOSE_DICTIONARY)
    ensures ReadLength(s, p) == Some((n, p + |dictionary| + 8 + |Decimal(n)|))
  {
    LengthFound(s, p, dictionary);
    NumberAt(s, p + |dictionary| + 8, n);
  }

  lemma StreamKeyword(s: Bytes, e: nat)
    requires At(s, e, CLOSE_DICTIONARY) && At(s, e + 4, STREAM)
    ensures FirstIndex(s, STREAM, e) == Some(e + 4)
  {
    forall j | e <= j < e + 4
      ensures s[j] != 's'
    {
      LetterAt(s, e, CLOSE_DICTIONARY, j - e);
    }
    FirstIndexIs(s, STREAM, e, e + 4, 0);
  }

  lemma ReadStreamParts(s: Bytes, p: nat, e: nat, data: Bytes)
    requires ReadLength(s, p) == Some((|data|, e)) && FirstIndex(s, STREAM, e) == Some(e + 4)
    requires At(s, e + 11, data) && EndsStream(s, e + 11 + |data|)
    ensures ReadStream(s, p) == Some(data)
  {
    AtIsSlice(s, e + 11, data);
  }

  /** A stream object gives back exactly the data that was put in it. */
  lemma ReadStreamObject(s: Bytes, p: nat, dictionary: Bytes, data: Bytes, closing: Bytes)
    requires At(s, p, StreamObject(dictionary, data, closing)) && NoLetterL(dictionary)
    requires EndsStream(closing, 0)
    ensures ReadStream(s, p) == Some(data)
  {
    var e := p + |dictionary| + 8 + |Decimal(|data|)|;
    StreamParts(s, p, dictionary, data, closing);
    ReadLengthOf(s, p, dictionary, |data|);
    StreamKeyword(s, e);
    EndsInside(s, e + 11 + |data|, closing);
    ReadStreamParts(s, p, e, data);
  }

  lemma EndsInside(s: Bytes, p: nat, closing: Bytes)
    requires At(s, p, closing) && EndsStream(closing, 0)
    ensures EndsStream(s, p)
  {
    AtInside(s, p, closing, "endstream");
    AtInside(s, p, closing, "\nendstream");
  }

  lemma AtInside(s: Bytes, p: nat, whole: Bytes, part: Bytes)
    requires At(s, p, whole)
    ensures At(whole, 0, part) ==> At(s, p, part)
  {
    if At(whole, 0, part) {
      assert whole == part + whole[|part|..];
      AtPrefix(s, p, whole, part, whole[|part|..]);
    }
  }
}
