/** What `buildPdfBytes` writes, a reader that follows the cross-reference table finds. */
module PdfRoundTrip {
  import opened Common
  import opened Decimals
  import opened Pdf
  import opened PdfReader

  // ----- Positions in concatenations -----

  lemma AtExtend(s: Bytes, p: nat, pattern: Bytes, more: Bytes)
    requires At(s, p, pattern)
    ensures At(s + more, p, pattern)
  {
  }

  lemma AtShift(before: Bytes, s: Bytes, p: nat, pattern: Bytes)
    requires At(s, p, pattern)
    ensures At(before + s, |before| + p, pattern)
  {
    forall k | 0 <= k < |pattern|
      ensures (before + s)[|before| + p + k] == pattern[k]
    {
      assert s[p + k] == pattern[k];
    }
  }

  lemma {:induction false} ChunkAt(chunks: seq<Bytes>, i: nat)
    requires i < |chunks|
    ensures At(Concat(chunks), |Concat(chunks[..i])|, chunks[i])
    decreases |chunks|
  {
    var n := |chunks| - 1;
    if i < n {
      assert chunks[..n][..i] == chunks[..i];
      ChunkAt(chunks[..n], i);
      AtExtend(Concat(chunks[..n]), |Concat(chunks[..i])|, chunks[i], chunks[n]);
    }
  }

  lemma {:induction false} FixedWidth(chunks: seq<Bytes>, width: nat)
    requires forall i :: 0 <= i < |chunks| ==> |chunks[i]| == width
    ensures |Concat(chunks)| == width * |chunks|
    decreases |chunks|
  {
    if chunks != [] {
      FixedWidth(chunks[..|chunks| - 1], width);
      OneMore(width, |chunks| - 1);
    }
  }

  lemma OneMore(width: nat, n: nat)
    ensures width * (n + 1) == width * n + width
  {
  }

  // ----- Cross-reference entries -----

  /** An entry is 20 bytes long exactly when its offset has at most ten digits. */
  lemma EntryWidth(offset: nat)
    ensures |Entry(offset)| == 20 <==> offset < Power10(10)
    ensures |Entry(offset)| >= 20
  {
    DecimalLength(offset, 10);
  }

  lemma EntryDigits(offset: nat)
    requires offset < Power10(10)
    ensures var d := PadStart(Decimal(offset), 10);
            |d| == 10 && AllDigits(d) && ParseDigits(d) == offset && Entry(offset) == d + IN_USE
  {
    DecimalLength(offset, 10);
    ParseDecimal(offset);
    ParsePadded(10 - |Decimal(offset)|, Decimal(offset));
    if |Decimal(offset)| == 10 {
      assert PadStart(Decimal(offset), 10) == Decimal(offset);
    }
  }

  /** Where the table's entry `i + 1` is, when the entries before it are 20 bytes long. */
  lemma EntryAt(offsets: seq<nat>, i: nat)
    requires i < |offsets|
    requires forall j :: 0 <= j < i ==> offsets[j] < Power10(10)
    ensures At(Concat(Entries(offsets)), 20 * i, Entry(offsets[i]))
  {
    var entries := Entries(offsets);
    ChunkAt(entries, i);
    forall j | 0 <= j < i
      ensures |entries[..i][j]| == 20
    {
      EntryWidth(offsets[j]);
    }
    FixedWidth(entries[..i], 20);
  }

  /** The fixed parts of a file, each where a reader expects it. */
  lemma LayParts(a: Bytes, b: Bytes, c: Bytes, d: Bytes, e: Bytes)
    ensures var s := Lay(a, b, c, d, e);
            && At(s, 0, a) && At(s, |a|, b) && At(s, |a| + |b| + |c|, d)
            && |s| >= |e| && At(s, |s| - |e|, e)
  {
    AtSelf(Lay(a, b, c, d, e));
    AtSplitFive(Lay(a, b, c, d, e), a, b, c, d, e);
    FiveLengths(a, b, c, d, e);
  }

  lemma AtSplitFive(s: Bytes, a: Bytes, b: Bytes, c: Bytes, d: Bytes, e: Bytes)
    requires At(s, 0, a + (b + (c + (d + e))))
    ensures At(s, 0, a) && At(s, |a|, b) && At(s, |a| + |b| + |c|, d) && At(s, |a| + |b| + |c| + |d|, e)
  {
    AtSplit(s, 0, a, b + (c + (d + e)));
    AtSplitFour(s, |a|, b, c, d, e);
  }

  lemma AtSelf(s: Bytes)
    ensures At(s, 0, s)
  {
  }

  lemma FiveLengths(a: Bytes, b: Bytes, c: Bytes, d: Bytes, e: Bytes)
    ensures |Lay(a, b, c, d, e)| == |a| + |b| + |c| + |d| + |e|
  {
  }

  lemma AtWithin(s: Bytes, p: nat, whole: Bytes, q: nat, part: Bytes)
    requires At(s, p, whole) && At(whole, q, part)
    ensures At(s, p + q, part)
  {
    forall k | 0 <= k < |part|
      ensures s[p + q + k] == part[k]
    {
      LetterAt(s, p, whole, q + k);
      LetterAt(whole, q, part, k);
    }
  }

  /** Object `i + 1` stands at its recorded offset, whatever follows the objects. */
  lemma ObjectAt(header: Bytes, objects: seq<Bytes>, i: nat, s: Bytes)
    requires i < |objects| && At(s, 0, header + Concat(objects))
    ensures At(s, Offset(header, objects, i), objects[i])
  {
    ChunkAt(objects, i);
    AtShift(header, Concat(objects), |Concat(objects[..i])|, objects[i]);
    AtWithin(s, 0, header + Concat(objects), Offset(header, objects, i), objects[i]);
  }

  // ----- The trailer -----

  lemma TrailerParts(s: Bytes, p: nat, count: nat, xref: nat)
    requires At(s, p, Trailer(count, xref)) && |s| == p + |Trailer(count, xref)|
    ensures var e := |s| - 6;
            var b := e - |Decimal(xref)|;
            b >= 10 && At(s, e, END_OF_FILE) && At(s, b, Decimal(xref)) && At(s, b - 10, STARTXREF)
  {
    var head := Concat(TrailerPieces(count));
    AtSplit(s, p, head, STARTXREF + (Decimal(xref) + END_OF_FILE));
    AtSplitThree(s, p + |head|, STARTXREF, Decimal(xref), END_OF_FILE);
  }

  /** `startxref` is read back as the position written there. */
  lemma StartXrefRead(s: Bytes, count: nat, x: nat)
    requires var t := Trailer(count, x); |t| <= |s| && At(s, |s| - |t|, t)
    ensures ReadStartXref(s) == Some(x)
  {
    TrailerParts(s, |s| - |Trailer(count, x)|, count, x);
    StartXrefAt(s, x);
  }

  lemma StartXrefAt(s: Bytes, x: nat)
    requires |s| >= 16 + |Decimal(x)|
    requires At(s, |s| - 6, END_OF_FILE)
    requires var b := |s| - 6 - |Decimal(x)|; At(s, b, Decimal(x)) && At(s, b - 10, STARTXREF)
    ensures ReadStartXref(s) == Some(x)
  {
    var b := |s| - 6 - |Decimal(x)|;
    LetterAt(s, b - 10, STARTXREF, 9);
    DigitsStartAt(s, b, Decimal(x));
    AtIsSlice(s, b, Decimal(x));
    ParseDecimal(x);
  }

  // ----- The table -----

  lemma HeadParts(s: Bytes, x: nat, count: nat)
    requires At(s, x, XrefHead(count))
    ensures At(s, x, XREF) && DigitsEnd(s, x + 7) == x + 7 + |Decimal(count + 1)|
    ensures At(s, x + 7 + |Decimal(count + 1)|, "\n") && |XrefHead(count)| == 8 + |Decimal(count + 1)|
  {
    var d := Decimal(count + 1);
    AtSplitThree(s, x, XREF, d, "\n");
    LetterAt(s, x + 7 + |d|, "\n", 0);
    DigitsEndAt(s, x + 7, d);
  }

  /** A 20-byte entry is read back as its offset; a longer one is not an entry at all. */
  lemma EntryRead(s: Bytes, x: nat, count: nat, i: nat, offset: nat)
    requires At(s, x, XrefHead(count)) && At(s, x + |XrefHead(count)| + 20 * (i + 1), Entry(offset))
    ensures ReadEntry(s, x, i + 1) == if offset < Power10(10) then Some(offset) else None
  {
    HeadParts(s, x, count);
    EntryAtRead(s, x, x + 7 + |Decimal(count + 1)|, i, offset);
  }

  lemma EntryAtRead(s: Bytes, x: nat, e: nat, i: nat, offset: nat)
    requires At(s, x, XREF) && DigitsEnd(s, x + 7) == e && At(s, e, "\n")
    requires At(s, e + 1 + 20 * (i + 1), Entry(offset))
    ensures ReadEntry(s, x, i + 1) == if offset < Power10(10) then Some(offset) else None
  {
    var p := e + 1 + 20 * (i + 1);
    EntryWidth(offset);
    if offset < Power10(10) {
      ShortEntry(s, p, offset);
    } else {
      LongEntry(s, p, offset);
    }
  }

  lemma ShortEntry(s: Bytes, p: nat, offset: nat)
    requires At(s, p, Entry(offset)) && offset < Power10(10)
    ensures p + 20 <= |s| && At(s, p + 10, IN_USE)
    ensures AllDigits(s[p..p + 10]) && ParseDigits(s[p..p + 10]) == offset
  {
    EntryDigits(offset);
    AtSplit(s, p, PadStart(Decimal(offset), 10), IN_USE);
    AtIsSlice(s, p, PadStart(Decimal(offset), 10));
  }

  lemma LongEntry(s: Bytes, p: nat, offset: nat)
    requires At(s, p, Entry(offset)) && offset >= Power10(10)
    ensures !At(s, p + 10, IN_USE)
  {
    DecimalLength(offset, 10);
    AtPrefix(s, p, Entry(offset), Decimal(offset), IN_USE);
    LetterAt(s, p, Decimal(offset), 10);
    if At(s, p + 10, IN_USE) {
      LetterAt(s, p + 10, IN_USE, 0);
      assert false;
    }
  }

  lemma TableRead(s: Bytes, x: nat, count: nat, offsets: seq<nat>, i: nat)
    requires At(s, x, XrefHead(count)) && At(s, x + |XrefHead(count)| + 20, Concat(Entries(offsets)))
    requires i < |offsets| && forall j :: 0 <= j < i ==> offsets[j] < Power10(10)
    ensures ReadEntry(s, x, i + 1) == if offsets[i] < Power10(10) then Some(offsets[i]) else None
  {
    EntryAt(offsets, i);
    AtWithin(s, x + |XrefHead(count)| + 20, Concat(Entries(offsets)), 20 * i, Entry(offsets[i]));
    EntryRead(s, x, count, i, offsets[i]);
  }

  // ----- Whole files -----

  lemma LayReads(s: Bytes, body: Bytes, count: nat, head: Bytes, offsets: seq<nat>, trailer: Bytes, i: nat)
    requires s == Lay(body, head, FREE_ENTRY, Concat(Entries(offsets)), trailer)
    requires head == XrefHead(count) && trailer == Trailer(count, |body|)
    requires i < |offsets| && forall j :: 0 <= j < i ==> offsets[j] < Power10(10)
    ensures ReadStartXref(s) == Some(|body|) && At(s, 0, body)
    ensures ReadEntry(s, |body|, i + 1) == if offsets[i] < Power10(10) then Some(offsets[i]) else None
  {
    LayParts(body, head, FREE_ENTRY, Concat(Entries(offsets)), trailer);
    StartXrefRead(s, count, |body|);
    FreeEntryWidth();
    TableRead(s, |body|, count, offsets, i);
  }

  lemma FreeEntryWidth()
    ensures |FREE_ENTRY| == 20
  {
  }

  lemma FileReads(header: Bytes, objects: seq<Bytes>, i: nat)
    requires i < |objects|
    requires forall j :: 0 <= j < i ==> Offset(header, objects, j) < Power10(10)
    ensures var s := Layout(header, objects);
            && ReadStartXref(s) == Some(|header + Concat(objects)|)
            && At(s, Offset(header, objects, i), objects[i])
            && ReadEntry(s, |header + Concat(objects)|, i + 1)
               == if Offset(header, objects, i) < Power10(10) then Some(Offset(header, objects, i)) else None
  {
    var s := Layout(header, objects);
    var body := header + Concat(objects);
    LayReads(s, body, |objects|, XrefHead(|objects|), Offsets(header, objects), Trailer(|objects|, |body|), i);
    ObjectAt(header, objects, i, s);
  }

  /** Whether the table can hold the offset of every object: it has ten digits a piece. */
  ghost predicate Addressable(header: Bytes, objects: seq<Bytes>) {
    forall i :: 0 <= i < |objects| ==> Offset(header, objects, i) < Power10(10)
  }

  ghost predicate Announced(objects: seq<Bytes>) {
    forall i :: 0 <= i < |objects| ==> At(objects[i], 0, Announce(i + 1))
  }

  ghost predicate EveryObjectFound(header: Bytes, objects: seq<Bytes>) {
    forall i :: 0 <= i < |objects| ==>
      FindObject(Layout(header, objects), i + 1) == Some(Offset(header, objects, i))
  }

  lemma ObjectFound(header: Bytes, objects: seq<Bytes>, i: nat)
    requires Announced(objects) && i < |objects|
    requires forall j :: 0 <= j < i ==> Offset(header, objects, j) < Power10(10)
    ensures FindObject(Layout(header, objects), i + 1)
         == if Offset(header, objects, i) < Power10(10) then Some(Offset(header, objects, i)) else None
  {
    FileReads(header, objects, i);
    AtWithin(Layout(header, objects), Offset(header, objects, i), objects[i], 0, Announce(i + 1));
    FindFollows(Layout(header, objects), i + 1, |header + Concat(objects)|, Offset(header, objects, i), Power10(10));
  }

  lemma FindFollows(s: Bytes, i: nat, xref: nat, offset: nat, limit: nat)
    requires ReadStartXref(s) == Some(xref) && At(s, offset, Announce(i))
    requires ReadEntry(s, xref, i) == if offset < limit then Some(offset) else None
    ensures FindObject(s, i) == if offset < limit then Some(offset) else None
  {
  }

  lemma FirstUnaddressable(header: Bytes, objects: seq<Bytes>, n: nat) returns (i: nat)
    requires n < |objects| && Offset(header, objects, n) >= Power10(10)
    ensures i < |objects| && Offset(header, objects, i) >= Power10(10)
    ensures forall j :: 0 <= j < i ==> Offset(header, objects, j) < Power10(10)
  {
    i := 0;
    while Offset(header, objects, i) < Power10(10)
      invariant i <= n && forall j :: 0 <= j < i ==> Offset(header, objects, j) < Power10(10)
      decreases n - i
    {
      i := i + 1;
    }
  }

  /** Every object is found through the table if and only if every offset fits in an entry. */
  lemma FoundExactlyWhenAddressable(header: Bytes, objects: seq<Bytes>)
    requires Announced(objects)
    ensures EveryObjectFound(header, objects) <==> Addressable(header, objects)
  {
    if Addressable(header, objects) {
      forall i: nat | i < |objects|
        ensures FindObject(Layout(header, objects), i + 1) == Some(Offset(header, objects, i))
      {
        ObjectFound(header, objects, i);
      }
    } else {
      var n :| 0 <= n < |objects| && Offset(header, objects, n) >= Power10(10);
      var i := FirstUnaddressable(header, objects, n);
      ObjectFound(header, objects, i);
    }
  }

  // ----- The files that the exporter writes -----

  lemma FirstPieceAt(pieces: seq<Bytes>)
    requires pieces != []
    ensures At(Concat(pieces), 0, pieces[0])
  {
    ChunkAt(pieces, 0);
    assert pieces[..0] == [];
  }

  lemma AnnouncedObjects(jpeg: Bytes, width: nat, height: nat)
    ensures Announced(Objects(jpeg, width, height))
  {
    FirstPieceAt(CatalogPieces());
    FirstPieceAt(PagesPieces());
    FirstPieceAt(PagePieces(width, height));
  }

  lemma NoLetterLConcat(a: Bytes, b: Bytes)
    requires NoLetterL(a) && NoLetterL(b)
    ensures NoLetterL(a + b)
  {
  }

  lemma DigitsHaveNoLetterL(n: nat)
    ensures NoLetterL(Decimal(n))
  {
  }

  lemma {:induction false} PiecesLack(pieces: seq<Bytes>, n: nat, c: char)
    requires n <= |pieces| && forall m :: 0 <= m < n ==> Lacks(pieces[m], c)
    ensures Lacks(Concat(pieces[..n]), c)
  {
    if n > 0 {
      PiecesLack(pieces, n - 1, c);
      assert pieces[..n][..n - 1] == pieces[..n - 1];
    }
  }

  lemma DigitsLack(n: nat, c: char)
    requires !IsDigit(c)
    ensures Lacks(Decimal(n), c)
  {
  }

  lemma ImageDictionaryHasNoLetterL(width: nat, height: nat)
    ensures NoLetterL(ImageDictionary(width, height))
  {
    var pieces := ImagePieces(width, height);
    DigitsLack(width, 'L');
    DigitsLack(height, 'L');
    PiecesLack(pieces, |pieces|, 'L');
    assert pieces[..|pieces|] == pieces;
  }

  lemma {:induction false} ConcatGrows(chunks: seq<Bytes>, i: nat)
    requires i <= |chunks|
    ensures |Concat(chunks[..i])| <= |Concat(chunks)|
    decreases |chunks|
  {
    if i == |chunks| {
      assert chunks[..i] == chunks;
    } else {
      assert chunks[..|chunks| - 1][..i] == chunks[..i];
      ConcatGrows(chunks[..|chunks| - 1], i);
    }
  }

  lemma BodyInFile(a: Bytes, b: Bytes, c: Bytes, d: Bytes, e: Bytes)
    ensures |a| <= |Lay(a, b, c, d, e)|
  {
  }

  /** A file shorter than ten gigabytes is addressable. */
  lemma ShortFilesAreAddressable(header: Bytes, objects: seq<Bytes>)
    requires |Layout(header, objects)| <= Power10(10)
    ensures Addressable(header, objects) || objects == []
  {
    var body := header + Concat(objects);
    BodyInFile(body, XrefHead(|objects|), FREE_ENTRY, Concat(Entries(Offsets(header, objects))),
               Trailer(|objects|, |body|));
    forall i | 0 <= i < |objects|
      ensures Offset(header, objects, i) < Power10(10)
    {
      ConcatGrows(objects, i);
    }
  }

  /** The stream of an announced object. */
  lemma AnnouncedStream(s: Bytes, p: nat, i: nat, dictionary: Bytes, data: Bytes, closing: Bytes)
    requires At(s, p, Announce(i) + StreamObject(dictionary, data, closing))
    requires NoLetterL(dictionary) && EndsStream(closing, 0)
    ensures ReadStream(s, p) == Some(data)
  {
    AnnounceHasNoLetterL(i);
    NoLetterLConcat(Announce(i), dictionary);
    Reassociate(Announce(i), dictionary, data, closing);
    ReadStreamObject(s, p, Announce(i) + dictionary, data, closing);
  }

  lemma AnnounceHasNoLetterL(i: nat)
    ensures NoLetterL(Announce(i))
  {
    DigitsHaveNoLetterL(i);
    NoLetterLConcat(Decimal(i), " 0 obj\n");
  }

  lemma Reassociate(a: Bytes, dictionary: Bytes, data: Bytes, closing: Bytes)
    ensures a + StreamObject(dictionary, data, closing) == StreamObject(a + dictionary, data, closing)
  {
    var rest := LENGTH + (Decimal(|data|) + (CLOSE_DICTIONARY + (STREAM + (data + closing))));
    AssociateTwo(a, dictionary, rest);
  }

  lemma AssociateTwo(a: Bytes, b: Bytes, c: Bytes)
    ensures a + (b + c) == (a + b) + c
  {
  }

  lemma Closings()
    ensures EndsStream(CONTENT_CLOSING, 0) && EndsStream(IMAGE_CLOSING, 0)
  {
  }

  lemma ObjectStream(s: Bytes, i: nat, p: nat, dictionary: Bytes, data: Bytes, closing: Bytes)
    requires FindObject(s, i) == Some(p) && At(s, p, Announce(i) + StreamObject(dictionary, data, closing))
    requires NoLetterL(dictionary) && EndsStream(closing, 0)
    ensures ReadObjectStream(s, i) == Some(data)
  {
    AnnouncedStream(s, p, i, dictionary, data, closing);
  }

  // ----- The document as a viewer finds it -----

  lemma PieceAt(s: Bytes, p: nat, pieces: seq<Bytes>, i: nat)
    requires At(s, p, Concat(pieces)) && i < |pieces|
    ensures At(s, p + |Concat(pieces[..i])|, pieces[i])
    ensures |Concat(pieces[..i + 1])| == |Concat(pieces[..i])| + |pieces[i]|
  {
    ChunkAt(pieces, i);
    AtWithin(s, p, Concat(pieces), |Concat(pieces[..i])|, pieces[i]);
    assert pieces[..i + 1][..i] == pieces[..i];
  }

  /** A key whose letter `k` does not occur before is found at its own place. */
  lemma KeyInPieces(s: Bytes, p: nat, pieces: seq<Bytes>, i: nat, k: nat)
    requires At(s, p, Concat(pieces)) && i < |pieces| && k < |pieces[i]|
    requires forall j :: 0 <= j < k ==> pieces[i][j] != pieces[i][k]
    requires forall m :: 0 <= m < i ==> Lacks(pieces[m], pieces[i][k])
    ensures FirstIndex(s, pieces[i], p) == Some(p + |Concat(pieces[..i])|)
  {
    var key, before := pieces[i], Concat(pieces[..i]);
    PieceAt(s, p, pieces, i);
    PiecesLack(pieces, i, key[k]);
    BeforeAt(s, p, pieces, i);
    forall j | p <= j < p + |before|
      ensures s[j] != key[k]
    {
      LetterAt(s, p, before, j - p);
    }
    FirstIndexIs(s, key, p, p + |before|, k);
  }

  lemma {:induction false} BeforeAt(s: Bytes, p: nat, pieces: seq<Bytes>, i: nat)
    requires At(s, p, Concat(pieces)) && i <= |pieces|
    ensures At(s, p, Concat(pieces[..i]))
    decreases |pieces|
  {
    var n := |pieces|;
    if i < n {
      AtSplit(s, p, Concat(pieces[..n - 1]), pieces[n - 1]);
      BeforeAt(s, p, pieces[..n - 1], i);
      assert pieces[..n - 1][..i] == pieces[..i];
    } else {
      assert pieces[..i] == pieces;
    }
  }

  lemma DigitsAt(s: Bytes, p: nat, n: nat)
    requires At(s, p, Decimal(n)) && p + |Decimal(n)| < |s| && !IsDigit(s[p + |Decimal(n)|])
    ensures DigitsEnd(s, p) == p + |Decimal(n)| && ParseDigits(s[p..p + |Decimal(n)|]) == n
  {
    DigitsEndAt(s, p, Decimal(n));
    AtIsSlice(s, p, Decimal(n));
    ParseDecimal(n);
  }

  lemma ThreePieces(s: Bytes, p: nat, pieces: seq<Bytes>, i: nat)
    requires At(s, p, Concat(pieces)) && i + 2 < |pieces|
    ensures var q := p + |Concat(pieces[..i])|;
            && At(s, q, pieces[i]) && At(s, q + |pieces[i]|, pieces[i + 1])
            && At(s, q + |pieces[i]| + |pieces[i + 1]|, pieces[i + 2])
    ensures |Concat(pieces[..i + 2])| == |Concat(pieces[..i])| + |pieces[i]| + |pieces[i + 1]|
  {
    PieceAt(s, p, pieces, i);
    PieceAt(s, p, pieces, i + 1);
    PieceAt(s, p, pieces, i + 2);
  }

  /** The number after a key is read back, and what follows it stands where its digits end. */
  lemma FieldInPieces(s: Bytes, p: nat, pieces: seq<Bytes>, i: nat, k: nat, n: nat)
    requires At(s, p, Concat(pieces)) && i + 2 < |pieces| && k < |pieces[i]|
    requires forall j :: 0 <= j < k ==> pieces[i][j] != pieces[i][k]
    requires forall m :: 0 <= m < i ==> Lacks(pieces[m], pieces[i][k])
    requires pieces[i + 1] == Decimal(n) && pieces[i + 2] != "" && !IsDigit(pieces[i + 2][0])
    ensures ReadField(s, p, pieces[i]) == Some((n, p + |Concat(pieces[..i + 2])|))
    ensures At(s, p + |Concat(pieces[..i + 2])|, pieces[i + 2])
  {
    var l := p + |Concat(pieces[..i])|;
    var b := l + |pieces[i]|;
    var e := b + |pieces[i + 1]|;
    KeyInPieces(s, p, pieces, i, k);
    ThreePieces(s, p, pieces, i);
    FieldAt(s, p, pieces[i], l, b, n, e, pieces[i + 2]);
  }

  lemma FieldAt(s: Bytes, p: nat, key: Bytes, l: nat, b: nat, n: nat, e: nat, next: Bytes)
    requires FirstIndex(s, key, p) == Some(l) && b == l + |key| && e == b + |Decimal(n)|
    requires At(s, b, Decimal(n)) && At(s, e, next) && next != "" && !IsDigit(next[0])
    ensures ReadField(s, p, key) == Some((n, e))
  {
    DigitsBefore(s, b, n, next);
    FieldFrom(s, p, key, l, n, e);
  }

  lemma FieldFrom(s: Bytes, p: nat, key: Bytes, l: nat, n: nat, e: nat)
    requires FirstIndex(s, key, p) == Some(l) && NumberIs(s, l + |key|, n, e)
    ensures ReadField(s, p, key) == Some((n, e))
  {
  }

  /** A reference: the number is followed by its generation, zero, and the letter R. */
  lemma ReferenceInPieces(s: Bytes, p: nat, pieces: seq<Bytes>, i: nat, k: nat, n: nat)
    requires At(s, p, Concat(pieces)) && i + 2 < |pieces| && k < |pieces[i]|
    requires forall j :: 0 <= j < k ==> pieces[i][j] != pieces[i][k]
    requires forall m :: 0 <= m < i ==> Lacks(pieces[m], pieces[i][k])
    requires pieces[i + 1] == Decimal(n) && At(pieces[i + 2], 0, " 0 R")
    ensures ReadReference(s, p, pieces[i]) == Some(n)
  {
    LetterAt(pieces[i + 2], 0, " 0 R", 0);
    FieldInPieces(s, p, pieces, i, k, n);
    AtWithin(s, p + |Concat(pieces[..i + 2])|, pieces[i + 2], 0, " 0 R");
  }

  lemma AnnounceLacks(i: nat, c: char)
    requires !IsDigit(c) && c != ' ' && c != 'o' && c != 'b' && c != 'j' && c != '\n'
    ensures Lacks(Announce(i), c)
  {
    DigitsLack(i, c);
  }

  lemma CatalogReads(s: Bytes, p: nat)
    requires At(s, p, Concat(CatalogPieces()))
    ensures ReadReference(s, p, "/Pages ") == Some(2)
  {
    AnnounceLacks(1, 'P');
    ReferenceInPieces(s, p, CatalogPieces(), 2, 1, 2);
  }

  lemma PagesReads(s: Bytes, p: nat)
    requires At(s, p, Concat(PagesPieces()))
    ensures ReadReference(s, p, "/Kids [") == Some(3)
    ensures ReadField(s, p, "/Count ").Some? && ReadField(s, p, "/Count ").value.0 == 1
  {
    AnnounceLacks(2, 'K');
    AnnounceLacks(2, 'C');
    DigitsLack(3, 'C');
    ReferenceInPieces(s, p, PagesPieces(), 2, 1, 3);
    FieldInPieces(s, p, PagesPieces(), 5, 1, 1);
  }

  lemma PageLacks(width: nat, height: nat, c: char, n: nat)
    requires c == 'C' || c == 'I' || c == 'M'
    requires n <= if c == 'M' then 5 else if c == 'C' then 10 else 13
    ensures forall m :: 0 <= m < n ==> Lacks(PagePieces(width, height)[m], c)
  {
    AnnounceLacks(3, c);
    DigitsLack(2, c);
    DigitsLack(4, c);
    DigitsLack(width, c);
    DigitsLack(height, c);
  }

  /** Two numbers with a separator between them are read back, and end where the second one does. */
  lemma PairBefore(s: Bytes, p: nat, m: nat, e: nat, separator: Bytes, q: nat, n: nat, f: nat, next: Bytes)
    requires separator != "" && !IsDigit(separator[0]) && next != "" && !IsDigit(next[0])
    requires e == p + |Decimal(m)| && q == e + |separator| && f == q + |Decimal(n)|
    requires At(s, p, Decimal(m)) && At(s, e, separator) && At(s, q, Decimal(n)) && At(s, f, next)
    ensures ReadPair(s, p, separator) == Some((m, n, f))
  {
    DigitsBefore(s, p, m, separator);
    DigitsBefore(s, q, n, next);
    PairFrom(s, p, e, m, separator, n, f);
  }

  lemma DigitsBefore(s: Bytes, p: nat, n: nat, next: Bytes)
    requires At(s, p, Decimal(n)) && At(s, p + |Decimal(n)|, next) && next != "" && !IsDigit(next[0])
    ensures NumberIs(s, p, n, p + |Decimal(n)|)
  {
    LetterAt(s, p + |Decimal(n)|, next, 0);
    DigitsAt(s, p, n);
  }

  /** The digits at `p` end at `e` and spell `n`. */
  predicate NumberIs(s: Bytes, p: nat, n: nat, e: nat) {
    p < e <= |s| && DigitsEnd(s, p) == e && ParseDigits(s[p..e]) == n
  }

  lemma PairFrom(s: Bytes, p: nat, e: nat, m: nat, separator: Bytes, n: nat, f: nat)
    requires NumberIs(s, p, m, e) && At(s, e, separator) && NumberIs(s, e + |separator|, n, f)
    ensures ReadPair(s, p, separator) == Some((m, n, f))
  {
  }

  /** The same between the pieces that follow a key. */
  lemma PairInPieces(s: Bytes, p: nat, pieces: seq<Bytes>, i: nat, m: nat, n: nat, q: nat, end: nat)
    requires At(s, p, Concat(pieces)) && i + 4 < |pieces|
    requires pieces[i + 1] == Decimal(m) && pieces[i + 3] == Decimal(n)
    requires pieces[i + 2] != "" && !IsDigit(pieces[i + 2][0]) && pieces[i + 4] != "" && !IsDigit(pieces[i + 4][0])
    requires q == p + |Concat(pieces[..i])| + |pieces[i]|
    requires end == q + |pieces[i + 1]| + |pieces[i + 2]| + |pieces[i + 3]|
    ensures ReadPair(s, q, pieces[i + 2]) == Some((m, n, end)) && At(s, end, pieces[i + 4])
  {
    var e := q + |pieces[i + 1]|;
    FivePieces(s, p, pieces, i, q, e, e + |pieces[i + 2]|, end);
    PairBefore(s, q, m, e, pieces[i + 2], e + |pieces[i + 2]|, n, end, pieces[i + 4]);
  }

  lemma FivePieces(s: Bytes, p: nat, pieces: seq<Bytes>, i: nat, q: nat, e: nat, b: nat, f: nat)
    requires At(s, p, Concat(pieces)) && i + 4 < |pieces|
    requires q == p + |Concat(pieces[..i])| + |pieces[i]| && e == q + |pieces[i + 1]|
    requires b == e + |pieces[i + 2]| && f == b + |pieces[i + 3]|
    ensures At(s, q, pieces[i + 1]) && At(s, e, pieces[i + 2]) && At(s, b, pieces[i + 3]) && At(s, f, pieces[i + 4])
  {
    ThreePieces(s, p, pieces, i);
    ThreePieces(s, p, pieces, i + 2);
  }

  lemma BoxInPieces(s: Bytes, p: nat, pieces: seq<Bytes>, i: nat, width: nat, height: nat)
    requires At(s, p, Concat(pieces)) && i + 4 < |pieces|
    requires pieces[i] == "/MediaBox [0 0 " && pieces[i + 2] == " " && pieces[i + 4] == "] "
    requires pieces[i + 1] == Decimal(width) && pieces[i + 3] == Decimal(height)
    requires forall m :: 0 <= m < i ==> Lacks(pieces[m], 'M')
    ensures ReadBox(s, p) == Some((width, height))
  {
    var l := p + |Concat(pieces[..i])|;
    var q := l + |pieces[i]|;
    var e := q + |pieces[i + 1]| + |pieces[i + 2]| + |pieces[i + 3]|;
    BoxKey();
    KeyInPieces(s, p, pieces, i, 1);
    PairInPieces(s, p, pieces, i, width, height, q, e);
    BoxFrom(s, p, l, width, height, e);
  }

  lemma BoxKey()
    ensures var key := "/MediaBox [0 0 "; |key| == 15 && key[0] == '/' && key[1] == 'M'
  {
  }

  lemma BoxFrom(s: Bytes, p: nat, l: nat, width: nat, height: nat, e: nat)
    requires FirstIndex(s, "/MediaBox [0 0 ", p) == Some(l) && ReadPair(s, l + 15, " ") == Some((width, height, e))
    requires At(s, e, "] ")
    ensures ReadBox(s, p) == Some((width, height))
  {
    LetterAt(s, e, "] ", 0);
  }

  lemma BoxReads(s: Bytes, p: nat, width: nat, height: nat)
    requires At(s, p, Concat(PagePieces(width, height)))
    ensures ReadBox(s, p) == Some((width, height))
  {
    PageLacks(width, height, 'M', 5);
    BoxInPieces(s, p, PagePieces(width, height), 5, width, height);
  }

  lemma PageReads(s: Bytes, p: nat, width: nat, height: nat)
    requires At(s, p, Concat(PagePieces(width, height)))
    ensures ReadReference(s, p, "/Parent ") == Some(2)
    ensures ReadReference(s, p, "/Contents ") == Some(4)
    ensures ReadReference(s, p, "/Im0 ") == Some(5)
  {
    var pieces := PagePieces(width, height);
    AnnounceLacks(3, 'r');
    ReferenceInPieces(s, p, pieces, 2, 3, 2);
    PageLacks(width, height, 'C', 10);
    ReferenceInPieces(s, p, pieces, 10, 1, 4);
    PageLacks(width, height, 'I', 13);
    ReferenceInPieces(s, p, pieces, 13, 1, 5);
  }

  lemma ConcatCons(first: Bytes, pieces: seq<Bytes>)
    ensures Concat([first] + pieces) == first + Concat(pieces)
    decreases |pieces|
  {
    if pieces == [] {
      assert [first] + pieces == [first] && [first][..0] == [];
    } else {
      var n := |pieces| - 1;
      ConcatCons(first, pieces[..n]);
      assert ([first] + pieces)[..n + 1] == [first] + pieces[..n];
      ConcatPush([first] + pieces[..n], pieces[n]);
      assert [first] + pieces == [first] + pieces[..n] + [pieces[n]];
      JoinThree(first, Concat(pieces[..n]), pieces[n]);
    }
  }

  lemma ImageLacks(width: nat, height: nat, c: char, n: nat)
    requires (c == 'W' && n <= 3) || (c == 'H' && n <= 6)
    ensures forall m :: 0 <= m < n ==> Lacks(([Announce(5)] + ImagePieces(width, height))[m], c)
  {
    AnnounceLacks(5, c);
    DigitsLack(width, c);
  }

  lemma ImageReads(s: Bytes, p: nat, width: nat, height: nat)
    requires At(s, p, Announce(5)) && At(s, p + |Announce(5)|, ImageDictionary(width, height))
    ensures ReadField(s, p, "/Width ").Some? && ReadField(s, p, "/Width ").value.0 == width
    ensures ReadField(s, p, "/Height ").Some? && ReadField(s, p, "/Height ").value.0 == height
    ensures IsJpeg(s, ReadField(s, p, "/Height ").value.1)
  {
    ConcatCons(Announce(5), ImagePieces(width, height));
    AtJoin(s, p, Announce(5), ImageDictionary(width, height));
    ImageLacks(width, height, 'W', 3);
    ImageLacks(width, height, 'H', 6);
    ImagePiecesRead(s, p, [Announce(5)] + ImagePieces(width, height), width, height);
  }

  lemma ImagePiecesRead(s: Bytes, p: nat, pieces: seq<Bytes>, width: nat, height: nat)
    requires At(s, p, Concat(pieces)) && pieces == [Announce(5)] + ImagePieces(width, height)
    requires forall m :: 0 <= m < 3 ==> Lacks(pieces[m], 'W')
    requires forall m :: 0 <= m < 6 ==> Lacks(pieces[m], 'H')
    ensures ReadField(s, p, "/Width ").Some? && ReadField(s, p, "/Width ").value.0 == width
    ensures ReadField(s, p, "/Height ").Some? && ReadField(s, p, "/Height ").value.0 == height
    ensures IsJpeg(s, ReadField(s, p, "/Height ").value.1)
  {
    FieldInPieces(s, p, pieces, 3, 1, width);
    FieldInPieces(s, p, pieces, 6, 1, height);
    FormatReads(s, p, pieces);
  }

  lemma FormatReads(s: Bytes, p: nat, pieces: seq<Bytes>)
    requires At(s, p, Concat(pieces)) && |pieces| == 11 && pieces[8] == " /ColorSpace /DeviceRGB"
    requires pieces[9] == " /BitsPerComponent 8" && pieces[10] == " /Filter /DCTDecode "
    ensures IsJpeg(s, p + |Concat(pieces[..8])|)
  {
    ThreePieces(s, p, pieces, 8);
    FormatLengths();
  }

  lemma FormatLengths()
    ensures |" /ColorSpace /DeviceRGB"| == 23 && |" /BitsPerComponent 8"| == 20
  {
  }

  lemma AtJoin(s: Bytes, p: nat, a: Bytes, b: Bytes)
    requires At(s, p, a) && At(s, p + |a|, b)
    ensures At(s, p, a + b)
  {
    forall k | 0 <= k < |a + b|
      ensures s[p + k] == (a + b)[k]
    {
      if k >= |a| {
        LetterAt(s, p + |a|, b, k - |a|);
      }
    }
  }

  lemma ContentReads(width: nat, height: nat)
    ensures ReadMatrix(Content(width, height)) == Some((width, height))
  {
    var e := 2 + |Decimal(width)|;
    var f := e + 5 + |Decimal(height)|;
    FiveParts(Content(width, height), "q\n", Decimal(width), " 0 0 ", Decimal(height), PAINT);
    PairBefore(Content(width, height), 2, width, e, " 0 0 ", e + 5, height, f, PAINT);
    MatrixFrom(Content(width, height), width, height, f);
  }

  lemma FiveParts(s: Bytes, a: Bytes, b: Bytes, c: Bytes, d: Bytes, e: Bytes)
    requires s == Lay(a, b, c, d, e)
    ensures && At(s, 0, a) && At(s, |a|, b) && At(s, |a| + |b|, c) && At(s, |a| + |b| + |c|, d)
            && At(s, |a| + |b| + |c| + |d|, e) && s[|a| + |b| + |c| + |d|..] == e
  {
    AtSelf(s);
    AtSplit(s, 0, a, b + (c + (d + e)));
    AtSplitFour(s, |a|, b, c, d, e);
    FiveLengths(a, b, c, d, e);
    AtIsSlice(s, |a| + |b| + |c| + |d|, e);
    assert |s| == |a| + |b| + |c| + |d| + |e|;
  }

  lemma MatrixFrom(c: Bytes, width: nat, height: nat, e: nat)
    requires At(c, 0, "q\n") && ReadPair(c, 2, " 0 0 ") == Some((width, height, e))
    requires e <= |c| && c[e..] == PAINT
    ensures ReadMatrix(c) == Some((width, height))
  {
  }

  /** The table's size and the trailer after it, in a file of this layout. */
  lemma TableEnds(s: Bytes, body: Bytes, count: nat, offsets: seq<nat>, trailer: Bytes)
    requires s == Lay(body, XrefHead(count), FREE_ENTRY, Concat(Entries(offsets)), trailer)
    requires |offsets| == count && forall j :: 0 <= j < count ==> offsets[j] < Power10(10)
    requires At(trailer, 0, "trailer\n")
    ensures ReadTable(s, |body|).Some? && ReadTable(s, |body|).value.0 == count + 1
    ensures At(s, ReadTable(s, |body|).value.1, trailer)
  {
    var head, table := XrefHead(count), Concat(Entries(offsets));
    var x := |body| + |head|;
    AtSelf(s);
    TableParts(s, body, head, FREE_ENTRY, table, trailer);
    FreeEntryWidth();
    EntriesAreFixed(offsets);
    AtWithin(s, x + 20 + |table|, trailer, 0, "trailer\n");
    CountRead(s, |body|, count);
  }

  lemma TableParts(s: Bytes, a: Bytes, b: Bytes, c: Bytes, d: Bytes, e: Bytes)
    requires At(s, 0, Lay(a, b, c, d, e))
    ensures At(s, |a|, b) && At(s, |a| + |b|, c) && At(s, |a| + |b| + |c| + |d|, e)
  {
    AtSplit(s, 0, a, b + (c + (d + e)));
    AtSplitFour(s, |a|, b, c, d, e);
  }

  lemma CountRead(s: Bytes, x: nat, count: nat)
    requires var p := x + |XrefHead(count)|;
             At(s, x, XrefHead(count)) && At(s, p, FREE_ENTRY) && At(s, p + 20 + 20 * count, "trailer\n")
    ensures ReadTable(s, x) == Some((count + 1, x + |XrefHead(count)| + 20 + 20 * count))
  {
    CountAt(s, x, count);
  }

  lemma EntriesAreFixed(offsets: seq<nat>)
    requires forall j :: 0 <= j < |offsets| ==> offsets[j] < Power10(10)
    ensures |Concat(Entries(offsets))| == 20 * |offsets|
  {
    forall j | 0 <= j < |offsets|
      ensures |Entries(offsets)[j]| == 20
    {
      EntryWidth(offsets[j]);
    }
    FixedWidth(Entries(offsets), 20);
  }

  lemma CountAt(s: Bytes, x: nat, count: nat)
    requires At(s, x, XrefHead(count))
    ensures At(s, x, XREF) && DigitsEnd(s, x + 7) == x + 7 + |Decimal(count + 1)|
    ensures ParseDigits(s[x + 7..x + 7 + |Decimal(count + 1)|]) == count + 1
    ensures At(s, x + 7 + |Decimal(count + 1)|, "\n") && |XrefHead(count)| == 8 + |Decimal(count + 1)|
  {
    HeadParts(s, x, count);
    AtSplitThree(s, x, XREF, Decimal(count + 1), "\n");
    AtIsSlice(s, x + 7, Decimal(count + 1));
    ParseDecimal(count + 1);
  }

  lemma TrailerReads(s: Bytes, p: nat, count: nat, xref: nat)
    requires At(s, p, Trailer(count, xref))
    ensures ReadField(s, p, "/Size ").Some? && ReadField(s, p, "/Size ").value.0 == count + 1
    ensures ReadReference(s, p, "/Root ") == Some(1)
  {
    AtSplit(s, p, Concat(TrailerPieces(count)), STARTXREF + (Decimal(xref) + END_OF_FILE));
    FieldInPieces(s, p, TrailerPieces(count), 2, 1, count + 1);
    DigitsLack(count + 1, 'R');
    ReferenceInPieces(s, p, TrailerPieces(count), 5, 1, 1);
  }

  /** From the trailer through the catalog and the page tree to the page. */
  lemma TreeReads(s: Bytes, trailer: nat, xref: nat, p: nat, q: nat, page: nat, width: nat, height: nat)
    requires At(s, trailer, Trailer(5, xref))
    requires FindObject(s, 1) == Some(p) && At(s, p, Concat(CatalogPieces()))
    requires FindObject(s, 2) == Some(q) && At(s, q, Concat(PagesPieces()))
    requires FindObject(s, 3) == Some(page) && At(s, page, Concat(PagePieces(width, height)))
    ensures ReadTree(s, trailer, 6) == Some(page)
  {
    TrailerReads(s, trailer, 5, xref);
    CatalogReads(s, p);
    PagesReads(s, q);
    PageReads(s, page, width, height);
  }

  lemma PageShows(s: Bytes, page: nat, image: nat, jpeg: Bytes, width: nat, height: nat)
    requires At(s, page, Concat(PagePieces(width, height)))
    requires ReadObjectStream(s, 4) == Some(Content(width, height)) && ReadObjectStream(s, 5) == Some(jpeg)
    requires FindObject(s, 5) == Some(image) && At(s, image, Announce(5))
    requires At(s, image + |Announce(5)|, ImageDictionary(width, height))
    ensures ReadPage(s, page) == Some(Document((width, height), (width, height), (width, height), jpeg))
  {
    BoxReads(s, page, width, height);
    PageReads(s, page, width, height);
    ContentReads(width, height);
    ImageReads(s, image, width, height);
  }

  /** The table leads to every object, which stands there. */
  ghost predicate Stands(s: Bytes, places: seq<nat>, objects: seq<Bytes>) {
    |places| == |objects|
    && forall i :: 0 <= i < |objects| ==> FindObject(s, i + 1) == Some(places[i]) && At(s, places[i], objects[i])
  }

  lemma EveryObjectStands(header: Bytes, objects: seq<Bytes>)
    requires Announced(objects) && Addressable(header, objects)
    ensures Stands(Layout(header, objects), Offsets(header, objects), objects)
  {
    forall i: nat | i < |objects|
      ensures FindObject(Layout(header, objects), i + 1) == Some(Offset(header, objects, i))
      ensures At(Layout(header, objects), Offset(header, objects, i), objects[i])
    {
      ObjectFound(header, objects, i);
      FileReads(header, objects, i);
    }
  }

  lemma TrailerStarts(count: nat, xref: nat)
    ensures At(Trailer(count, xref), 0, "trailer\n")
  {
    FirstPieceAt(TrailerPieces(count));
    AtExtend(Concat(TrailerPieces(count)), 0, "trailer\n", STARTXREF + (Decimal(xref) + END_OF_FILE));
  }

  lemma TableFound(header: Bytes, objects: seq<Bytes>)
    requires Addressable(header, objects)
    ensures var s, xref := Layout(header, objects), |header + Concat(objects)|;
            && ReadTable(s, xref).Some? && ReadTable(s, xref).value.0 == |objects| + 1
            && At(s, ReadTable(s, xref).value.1, Trailer(|objects|, xref))
  {
    var xref := |header + Concat(objects)|;
    TrailerStarts(|objects|, xref);
    TableEnds(Layout(header, objects), header + Concat(objects), |objects|, Offsets(header, objects),
              Trailer(|objects|, xref));
  }

  lemma ContentStream(s: Bytes, p: nat, width: nat, height: nat)
    requires FindObject(s, 4) == Some(p)
    requires At(s, p, Announce(4) + StreamObject(CONTENT_DICTIONARY, Content(width, height), CONTENT_CLOSING))
    ensures ReadObjectStream(s, 4) == Some(Content(width, height))
  {
    Closings();
    ObjectStream(s, 4, p, CONTENT_DICTIONARY, Content(width, height), CONTENT_CLOSING);
  }

  lemma ImageStream(s: Bytes, p: nat, dictionary: Bytes, jpeg: Bytes)
    requires FindObject(s, 5) == Some(p) && NoLetterL(dictionary)
    requires At(s, p, Announce(5) + StreamObject(dictionary, jpeg, IMAGE_CLOSING))
    ensures ReadObjectStream(s, 5) == Some(jpeg)
    ensures At(s, p, Announce(5)) && At(s, p + |Announce(5)|, dictionary)
  {
    Closings();
    ObjectStream(s, 5, p, dictionary, jpeg, IMAGE_CLOSING);
    AtSplit(s, p, Announce(5), StreamObject(dictionary, jpeg, IMAGE_CLOSING));
    StreamParts(s, p + |Announce(5)|, dictionary, jpeg, IMAGE_CLOSING);
  }

  lemma ObjectsRead(s: Bytes, trailer: nat, xref: nat, places: seq<nat>, jpeg: Bytes, width: nat, height: nat)
    requires Stands(s, places, Objects(jpeg, width, height)) && At(s, trailer, Trailer(5, xref))
    ensures ReadObjectStream(s, 4) == Some(Content(width, height))
    ensures ReadTree(s, trailer, 6) == Some(places[2])
    ensures ReadPage(s, places[2]) == Some(Document((width, height), (width, height), (width, height), jpeg))
  {
    ghost var objects := Objects(jpeg, width, height);
    assert forall i :: 0 <= i < |objects| ==> At(s, places[i], objects[i]);
    ContentStream(s, places[3], width, height);
    ImageDictionaryHasNoLetterL(width, height);
    ImageStream(s, places[4], ImageDictionary(width, height), jpeg);
    TreeReads(s, trailer, xref, places[0], places[1], places[2], width, height);
    PageShows(s, places[2], places[4], jpeg, width, height);
  }

  lemma StartsWithHeader(s: Bytes, rest: Bytes)
    requires At(s, 0, Concat([HEADER, BINARY_MARK]) + rest)
    ensures At(s, 0, HEADER)
  {
    AtSplit(s, 0, Concat([HEADER, BINARY_MARK]), rest);
    FirstPieceAt([HEADER, BINARY_MARK]);
    AtWithin(s, 0, Concat([HEADER, BINARY_MARK]), 0, HEADER);
  }

  lemma DocumentFrom(s: Bytes, xref: nat, trailer: nat, page: nat, shown: Document)
    requires At(s, 0, HEADER) && ReadStartXref(s) == Some(xref) && ReadTable(s, xref) == Some((6, trailer))
    requires ReadTree(s, trailer, 6) == Some(page) && ReadPage(s, page) == Some(shown)
    ensures ReadDocument(s) == Some(shown)
  {
  }

  /**
   The written file reads back: every object is found through the cross-reference table, and a viewer that
   follows the references finds one page, whose box, whose content's scale and whose image all have the
   given size, and the image that went in.
   */
  lemma PdfReadsBack(jpeg: Bytes, width: nat, height: nat)
    requires Addressable(Concat([HEADER, BINARY_MARK]), Objects(jpeg, width, height))
    ensures EveryObjectFound(Concat([HEADER, BINARY_MARK]), Objects(jpeg, width, height))
    ensures ReadObjectStream(File(jpeg, width, height), 4) == Some(Content(width, height))
    ensures ReadDocument(File(jpeg, width, height))
         == Some(Document((width, height), (width, height), (width, height), jpeg))
  {
    var header, objects := Concat([HEADER, BINARY_MARK]), Objects(jpeg, width, height);
    AnnouncedObjects(jpeg, width, height);
    FoundExactlyWhenAddressable(header, objects);
    EveryObjectStands(header, objects);
    DocumentReads(header, objects, jpeg, width, height);
  }

  lemma DocumentReads(header: Bytes, objects: seq<Bytes>, jpeg: Bytes, width: nat, height: nat)
    requires header == Concat([HEADER, BINARY_MARK]) && objects == Objects(jpeg, width, height)
    requires Addressable(header, objects) && Stands(Layout(header, objects), Offsets(header, objects), objects)
    ensures ReadObjectStream(Layout(header, objects), 4) == Some(Content(width, height))
    ensures ReadDocument(Layout(header, objects))
         == Some(Document((width, height), (width, height), (width, height), jpeg))
  {
    var s, xref, places := Layout(header, objects), |header + Concat(objects)|, Offsets(header, objects);
    FileReads(header, objects, 0);
    LayStarts(header, objects);
    StartsWithHeader(s, Concat(objects));
    TableFound(header, objects);
    var trailer := ReadTable(s, xref).value.1;
    ObjectsRead(s, trailer, xref, places, jpeg, width, height);
    DocumentFrom(s, xref, trailer, places[2], Document((width, height), (width, height), (width, height), jpeg));
  }

  lemma LayStarts(header: Bytes, objects: seq<Bytes>)
    ensures At(Layout(header, objects), 0, header + Concat(objects))
  {
    var body := header + Concat(objects);
    LayParts(body, XrefHead(|objects|), FREE_ENTRY, Concat(Entries(Offsets(header, objects))),
             Trailer(|objects|, |body|));
  }

  // ----- Every image can be written -----

  lemma {:induction false} DecimalShort(n: nat)
    ensures |Decimal(n)| <= n + 1
  {
    if n >= 10 {
      DecimalShort(n / 10);
    }
  }

  /** Pieces of at most 40 bytes each, but for two of them. */
  lemma {:induction false} PiecesBound(pieces: seq<Bytes>, i: nat, j: nat, a: nat, b: nat, n: nat)
    requires n <= |pieces| && i != j
    requires forall m :: 0 <= m < n ==> |pieces[m]| <= if m == i then a else if m == j then b else 40
    ensures |Concat(pieces[..n])| <= 40 * n + (if i < n then a else 0) + (if j < n then b else 0)
  {
    if n > 0 {
      PiecesBound(pieces, i, j, a, b, n - 1);
      assert pieces[..n][..n - 1] == pieces[..n - 1];
    }
  }

  lemma SmallNumber(n: nat)
    requires n < 10
    ensures |Decimal(n)| == 1
  {
  }

  lemma ContentObjectLength(width: nat, height: nat)
    ensures |Announce(4) + StreamObject(CONTENT_DICTIONARY, Content(width, height), CONTENT_CLOSING)|
            <= 200 + 2 * (|Decimal(width)| + |Decimal(height)|)
  {
    DecimalShort(|Content(width, height)|);
    SmallNumber(4);
  }

  lemma ObjectLengths(jpeg: Bytes, width: nat, height: nat)
    ensures var objects := Objects(jpeg, width, height);
            && |objects[0]| <= 280 && |objects[1]| <= 400
            && |objects[2]| <= 720 + |Decimal(width)| + |Decimal(height)|
            && |objects[3]| <= 200 + 2 * (|Decimal(width)| + |Decimal(height)|)
  {
    SmallNumber(1);
    SmallNumber(2);
    SmallNumber(3);
    SmallNumber(4);
    SmallNumber(5);
    var catalog, pages, page := CatalogPieces(), PagesPieces(), PagePieces(width, height);
    PiecesBound(catalog, 0, 1, 40, 40, |catalog|);
    PiecesBound(pages, 0, 1, 40, 40, |pages|);
    PiecesBound(page, 6, 8, |Decimal(width)|, |Decimal(height)|, |page|);
    assert catalog[..|catalog|] == catalog && pages[..|pages|] == pages && page[..|page|] == page;
    ContentObjectLength(width, height);
  }

  lemma {:induction false} ConcatBound(chunks: seq<Bytes>, bounds: seq<nat>)
    requires |chunks| == |bounds| && forall i :: 0 <= i < |chunks| ==> |chunks[i]| <= bounds[i]
    ensures |Concat(chunks)| <= SumOf(bounds)
    decreases |chunks|
  {
    if chunks != [] {
      ConcatBound(chunks[..|chunks| - 1], bounds[..|chunks| - 1]);
    }
  }

  function SumOf(ns: seq<nat>): nat
    decreases |ns|
  {
    if ns == [] then 0 else SumOf(ns[..|ns| - 1]) + ns[|ns| - 1]
  }

  /** The image data stands after every offset, so no image is too large: only absurd dimensions are. */
  lemma AnyImageIsAddressable(jpeg: Bytes, width: nat, height: nat)
    requires |Decimal(width)| + |Decimal(height)| <= 1_000_000_000
    ensures Addressable(Concat([HEADER, BINARY_MARK]), Objects(jpeg, width, height))
  {
    var header, objects := Concat([HEADER, BINARY_MARK]), Objects(jpeg, width, height);
    var d := |Decimal(width)| + |Decimal(height)|;
    ObjectLengths(jpeg, width, height);
    FourBound(objects[..4], d);
    HeaderLength();
    Power10Ten();
    forall i | 0 <= i < |objects|
      ensures Offset(header, objects, i) < Power10(10)
    {
      assert objects[..4][..i] == objects[..i];
      ConcatGrows(objects[..4], i);
    }
  }

  lemma FourBound(chunks: seq<Bytes>, d: nat)
    requires |chunks| == 4 && |chunks[0]| <= 280 && |chunks[1]| <= 400
    requires |chunks[2]| <= 720 + d && |chunks[3]| <= 200 + 2 * d
    ensures |Concat(chunks)| <= 1600 + 3 * d
  {
    var bounds := [280, 400, 720 + d, 200 + 2 * d];
    ConcatBound(chunks, bounds);
    assert bounds[..3] == [280, 400, 720 + d] && bounds[..3][..2] == [280, 400] && [280, 400][..1] == [280];
    assert SumOf(bounds[..3]) == SumOf([280, 400]) + 720 + d;
    assert SumOf([280, 400]) == SumOf([280]) + 400;
  }

  lemma HeaderLength()
    ensures |Concat([HEADER, BINARY_MARK])| == 15
  {
    ConcatPush([], HEADER);
    ConcatPush([HEADER], BINARY_MARK);
    assert [] + [HEADER] == [HEADER] && [HEADER] + [BINARY_MARK] == [HEADER, BINARY_MARK];
  }

  lemma Power10Ten()
    ensures Power10(10) == 10_000_000_000
  {
    assert Power10(5) == 100_000;
  }
}
