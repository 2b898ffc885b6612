/**
 The single-image PDF writer (`buildPdfBytes`, src/modules/export/export.service.ts) and an independent
 reader of the parts that must agree: the cross-reference table and the stream lengths
 (sections 7.3.8, 7.5.4 and 7.5.5 of ISO 32000-1). A byte is represented by the char with its code.
 */
module Pdf {
  import opened Common
  import opened Decimals

  type Bytes = string

  const HEADER := "%PDF-1.4\n"
  const BINARY_MARK := ['%', 0xe2 as char, 0xe3 as char, 0xcf as char, 0xd3 as char, '\n']
  const FREE_ENTRY := "0000000000 65535 f \n"
  const XREF := "xref\n0 "
  const STARTXREF := "startxref\n"
  const END_OF_FILE := "\n%%EOF"
  const IN_USE := " 00000 n \n"
  const LENGTH := "/Length "
  const CLOSE_DICTIONARY := " >>\n"
  const STREAM := "stream\n"

  const PAINT := " 0 0 cm\n/Im0 Do\nQ\n"

  /** Five parts, one after the other. */
  function Lay(a: Bytes, b: Bytes, c: Bytes, d: Bytes, e: Bytes): Bytes { a + (b + (c + (d + e))) }

  /** How an indirect object announces itself. */
  function Announce(i: nat): Bytes { Decimal(i) + " 0 obj\n" }

  /** The objects, as the pieces of text that they are made of. */
  function CatalogPieces(): seq<Bytes> {
    [Announce(1), "<< /Type /Catalog ", "/Pages ", Decimal(2), " 0 R >>\nendobj\n"]
  }

  function PagesPieces(): seq<Bytes> {
    [Announce(2), "<< /Type /Pages ", "/Kids [", Decimal(3), " 0 R] ", "/Count ", Decimal(1), " >>\nendobj\n"]
  }

  function PagePieces(width: nat, height: nat): seq<Bytes> {
    [Announce(3), "<< /Type /Page ", "/Parent ", Decimal(2), " 0 R ", "/MediaBox [0 0 ", Decimal(width), " ",
     Decimal(height), "] ", "/Contents ", Decimal(4), " 0 R /Resources << /XObject << ", "/Im0 ", Decimal(5),
     " 0 R >> >> >>\nendobj\n"]
  }

  function Content(width: nat, height: nat): Bytes {
    Lay("q\n", Decimal(width), " 0 0 ", Decimal(height), PAINT)
  }

  function ImagePieces(width: nat, height: nat): seq<Bytes> {
    ["<< /Type /XObject ", "/Subtype /Image ", "/Width ", Decimal(width), " ", "/Height ", Decimal(height),
     " /ColorSpace /DeviceRGB", " /BitsPerComponent 8", " /Filter /DCTDecode "]
  }

  function ImageDictionary(width: nat, height: nat): Bytes { Concat(ImagePieces(width, height)) }

  const CONTENT_DICTIONARY := "<< "
  const CONTENT_CLOSING := "endstream\nendobj\n"
  const IMAGE_CLOSING := "\nendstream\nendobj\n"

  /** A stream object: the start of its dictionary, the length, the data and what closes it. */
  function StreamObject(dictionary: Bytes, data: Bytes, closing: Bytes): Bytes {
    dictionary + (LENGTH + (Decimal(|data|) + (CLOSE_DICTIONARY + (STREAM + (data + closing)))))
  }

  function Objects(jpeg: Bytes, width: nat, height: nat): seq<Bytes> {
    [Concat(CatalogPieces()),
     Concat(PagesPieces()),
     Concat(PagePieces(width, height)),
     Announce(4) + StreamObject(CONTENT_DICTIONARY, Content(width, height), CONTENT_CLOSING),
     Announce(5) + StreamObject(ImageDictionary(width, height), jpeg, IMAGE_CLOSING)]
  }

  function Concat(chunks: seq<Bytes>): Bytes
    decreases |chunks|
  {
    if chunks == [] then [] else Concat(chunks[..|chunks| - 1]) + chunks[|chunks| - 1]
  }

  function Entry(offset: nat): Bytes {
    PadStart(Decimal(offset), 10) + IN_USE
  }

  function TrailerPieces(count: nat): seq<Bytes> {
    ["trailer\n", "<< ", "/Size ", Decimal(count + 1), " ", "/Root ", Decimal(1), " 0 R >>\n"]
  }

  function Trailer(count: nat, xref: nat): Bytes {
    Concat(TrailerPieces(count)) + (STARTXREF + (Decimal(xref) + END_OF_FILE))
  }

  function XrefHead(count: nat): Bytes { XREF + (Decimal(count + 1) + "\n") }

  function Entries(offsets: seq<nat>): seq<Bytes> {
    seq(|offsets|, i requires 0 <= i < |offsets| => Entry(offsets[i]))
  }

  /** Where object `i + 1` starts: after the header and the objects before it. */
  function Offset(header: Bytes, objects: seq<Bytes>, i: nat): nat
    requires i <= |objects|
  {
    |header| + |Concat(objects[..i])|
  }

  function Offsets(header: Bytes, objects: seq<Bytes>): seq<nat> {
    seq(|objects|, i requires 0 <= i < |objects| => Offset(header, objects, i))
  }

  /** The layout of a file: header and objects, cross-reference table, trailer. */
  function Layout(header: Bytes, objects: seq<Bytes>): Bytes {
    var body := header + Concat(objects);
    Lay(body, XrefHead(|objects|), FREE_ENTRY, Concat(Entries(Offsets(header, objects))), Trailer(|objects|, |body|))
  }

  function File(jpeg: Bytes, width: nat, height: nat): Bytes {
    Layout(Concat([HEADER, BINARY_MARK]), Objects(jpeg, width, height))
  }

  // ----- The writer -----

  lemma ConcatPush(chunks: seq<Bytes>, chunk: Bytes)
    ensures Concat(chunks + [chunk]) == Concat(chunks) + chunk
  {
    assert (chunks + [chunk])[..|chunks|] == chunks;
  }

  /** Pushes the objects one after the other, remembering the length before each. */
  method PushObjects(header: seq<Bytes>, objects: seq<Bytes>)
      returns (chunks: seq<Bytes>, offsets: seq<nat>, length: nat)
    ensures Concat(chunks) == Concat(header) + Concat(objects)
    ensures offsets == Offsets(Concat(header), objects)
    ensures length == |Concat(chunks)|
  {
    chunks, offsets, length := header, [], |Concat(header)|;
    for i := 0 to |objects|
      invariant |offsets| == i && forall k :: 0 <= k < i ==> offsets[k] == Offset(Concat(header), objects, k)
      invariant Concat(chunks) == Concat(header) + Concat(objects[..i])
      invariant length == |Concat(chunks)|
    {
      offsets := offsets + [length];
      ConcatPush(chunks, objects[i]);
      ConcatPush(objects[..i], objects[i]);
      assert objects[..i + 1] == objects[..i] + [objects[i]];
      chunks := chunks + [objects[i]];
      length := length + |objects[i]|;
    }
    assert objects[..|objects|] == objects;
  }

  method PushEntries(before: seq<Bytes>, offsets: seq<nat>) returns (chunks: seq<Bytes>)
    ensures Concat(chunks) == Concat(before) + Concat(Entries(offsets))
  {
    chunks := before;
    for i := 0 to |offsets|
      invariant Concat(chunks) == Concat(before) + Concat(Entries(offsets)[..i])
    {
      PushEntry(before, chunks, offsets, i);
      chunks := chunks + [Entry(offsets[i])];
    }
    assert Entries(offsets)[..|offsets|] == Entries(offsets);
  }

  lemma PushEntry(before: seq<Bytes>, chunks: seq<Bytes>, offsets: seq<nat>, i: nat)
    requires i < |offsets| && Concat(chunks) == Concat(before) + Concat(Entries(offsets)[..i])
    ensures Concat(chunks + [Entry(offsets[i])]) == Concat(before) + Concat(Entries(offsets)[..i + 1])
  {
    EntriesStep(offsets, i);
    ConcatPush(chunks, Entry(offsets[i]));
    JoinThree(Concat(before), Concat(Entries(offsets)[..i]), Entry(offsets[i]));
  }

  lemma JoinThree(a: Bytes, b: Bytes, c: Bytes)
    ensures a + b + c == a + (b + c)
  {
  }

  lemma EntriesStep(offsets: seq<nat>, i: nat)
    requires i < |offsets|
    ensures Concat(Entries(offsets)[..i + 1]) == Concat(Entries(offsets)[..i]) + Entry(offsets[i])
  {
    var entries := Entries(offsets);
    assert entries[..i + 1] == entries[..i] + [entries[i]];
    ConcatPush(entries[..i], entries[i]);
  }

  /** The part of `buildPdfBytes` that lays chunks out and counts their length. */
  method Assemble(header: seq<Bytes>, objects: seq<Bytes>) returns (pdf: Bytes)
    ensures pdf == Layout(Concat(header), objects)
  {
    var chunks, offsets, xref := PushObjects(header, objects);
    ghost var body := Concat(chunks);
    ConcatPush(chunks, XrefHead(|objects|));
    chunks := chunks + [XrefHead(|objects|)];
    ConcatPush(chunks, FREE_ENTRY);
    chunks := chunks + [FREE_ENTRY];
    chunks := PushEntries(chunks, offsets);
    ConcatPush(chunks, Trailer(|objects|, xref));
    chunks := chunks + [Trailer(|objects|, xref)];
    pdf := Concat(chunks);
    Associate(body, XrefHead(|objects|), FREE_ENTRY, Concat(Entries(offsets)), Trailer(|objects|, xref));
  }

  lemma Associate(a: Bytes, b: Bytes, c: Bytes, d: Bytes, e: Bytes)
    ensures a + b + c + d + e == Lay(a, b, c, d, e)
  {
  }

  method BuildPdf(jpeg: Bytes, width: nat, height: nat) returns (pdf: Bytes)
    ensures pdf == File(jpeg, width, height)
  {
    pdf := Assemble([HEADER, BINARY_MARK], Objects(jpeg, width, height));
  }
}
