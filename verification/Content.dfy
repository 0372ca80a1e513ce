/** What downloaded bytes are: their identity, however they arrive in chunks, and their format. */
module Content {
  import opened Options
  import opened Sequences

  type Bytes = seq<bv8>

  datatype Format = Pdf | Xlsx | Xls | Docx | Doc | Csv | Json | Xml | Html | Zip | Png | Jpeg | Tiff

  // ---- Signatures ----

  const PDF: Bytes := [0x25, 0x50, 0x44, 0x46, 0x2D]
  const PNG: Bytes := [0x89, 0x50, 0x4E, 0x47, 0x0D, 0x0A, 0x1A, 0x0A]
  const JPEG: Bytes := [0xFF, 0xD8, 0xFF]
  const TIFF_LITTLE: Bytes := [0x49, 0x49, 0x2A, 0x00]
  const TIFF_BIG: Bytes := [0x4D, 0x4D, 0x00, 0x2A]
  const OLE: Bytes := [0xD0, 0xCF, 0x11, 0xE0, 0xA1, 0xB1, 0x1A, 0xE1]
  const ZIP: Bytes := [0x50, 0x4B, 0x03, 0x04]

  const SIGNATURES: seq<(Bytes, Format)> :=
    [(PDF, Pdf), (PNG, Png), (JPEG, Jpeg), (TIFF_LITTLE, Tiff), (TIFF_BIG, Tiff), (OLE, Doc), (ZIP, Zip)]

  const SNIFF_PREFIX := 8

  function SniffIn(table: seq<(Bytes, Format)>, payload: Bytes): Option<Format> {
    if table == [] then None
    else if table[0].0 <= payload then Some(table[0].1)
    else SniffIn(table[1..], payload)
  }

  function Sniff(payload: Bytes): Option<Format> {
    SniffIn(SIGNATURES, payload)
  }

  function Front(payload: Bytes): Bytes {
    if |payload| <= SNIFF_PREFIX then payload else payload[..SNIFF_PREFIX]
  }

  lemma {:induction false} SniffInFront(table: seq<(Bytes, Format)>, payload: Bytes)
    requires forall i :: 0 <= i < |table| ==> |table[i].0| <= SNIFF_PREFIX
    ensures SniffIn(table, Front(payload)) == SniffIn(table, payload)
  {
    if table != [] { SniffInFront(table[1..], payload); }
  }

  /** The buffered prefix is enough: sniffing it is sniffing the whole payload. */
  lemma PrefixIsConclusive(payload: Bytes)
    ensures Sniff(Front(payload)) == Sniff(payload)
  {
    SniffInFront(SIGNATURES, payload);
  }

  /** No signature begins another, so a payload starts with at most one and the table's order is immaterial. */
  lemma SignaturesExcludeEachOther(payload: Bytes, i: nat, j: nat)
    requires i < |SIGNATURES| && j < |SIGNATURES|
    requires SIGNATURES[i].0 <= payload && SIGNATURES[j].0 <= payload
    ensures i == j
  {
    FirstBytesDiffer(i, j);
    assert payload[0] == SIGNATURES[i].0[0];
    assert payload[0] == SIGNATURES[j].0[0];
  }

  lemma FirstBytesDiffer(i: nat, j: nat)
    requires i < |SIGNATURES| && j < |SIGNATURES|
    ensures SIGNATURES[i].0 != [] && SIGNATURES[j].0 != []
    ensures SIGNATURES[i].0[0] == SIGNATURES[j].0[0] ==> i == j
  {
  }

  lemma {:induction false} SniffInFinds(table: seq<(Bytes, Format)>, payload: Bytes)
    ensures SniffIn(table, payload).Some? <==> exists i :: 0 <= i < |table| && table[i].0 <= payload
    ensures SniffIn(table, payload).Some? ==>
              exists i :: 0 <= i < |table| && table[i].0 <= payload && SniffIn(table, payload) == Some(table[i].1)
  {
    if table != [] {
      SniffInFinds(table[1..], payload);
      if i :| 0 <= i < |table[1..]| && table[1..][i].0 <= payload { assert table[i + 1].0 <= payload; }
      if i :| 0 <= i < |table[1..]| && table[1..][i].0 <= payload && SniffIn(table[1..], payload) == Some(table[1..][i].1) {
        assert table[i + 1].0 <= payload && table[1..][i].1 == table[i + 1].1;
      }
      if i :| 0 <= i < |table| && table[i].0 <= payload && i > 0 { assert table[1..][i - 1].0 <= payload; }
    }
  }

  /** Which first bytes are recognised as which format. */
  lemma SniffMeans(payload: Bytes)
    ensures Sniff(payload) == Some(Pdf) <==> [0x25, 0x50, 0x44, 0x46, 0x2D] <= payload
    ensures Sniff(payload) == Some(Png) <==> [0x89, 0x50, 0x4E, 0x47, 0x0D, 0x0A, 0x1A, 0x0A] <= payload
    ensures Sniff(payload) == Some(Jpeg) <==> [0xFF, 0xD8, 0xFF] <= payload
    ensures Sniff(payload) == Some(Tiff) <==> [0x49, 0x49, 0x2A, 0x00] <= payload || [0x4D, 0x4D, 0x00, 0x2A] <= payload
    ensures Sniff(payload) == Some(Doc) <==> [0xD0, 0xCF, 0x11, 0xE0, 0xA1, 0xB1, 0x1A, 0xE1] <= payload
    ensures Sniff(payload) == Some(Zip) <==> [0x50, 0x4B, 0x03, 0x04] <= payload
    ensures Sniff(payload) in {None, Some(Pdf), Some(Png), Some(Jpeg), Some(Tiff), Some(Doc), Some(Zip)}
  {
    SniffInFinds(SIGNATURES, payload);
    if Sniff(payload).Some? {
      var i :| 0 <= i < |SIGNATURES| && SIGNATURES[i].0 <= payload && Sniff(payload) == Some(SIGNATURES[i].1);
      forall j | 0 <= j < |SIGNATURES| && SIGNATURES[j].0 <= payload ensures i == j { SignaturesExcludeEachOther(payload, i, j); }
    }
    assert SIGNATURES[0].0 == PDF && SIGNATURES[1].0 == PNG && SIGNATURES[2].0 == JPEG && SIGNATURES[3].0 == TIFF_LITTLE;
    assert SIGNATURES[4].0 == TIFF_BIG && SIGNATURES[5].0 == OLE && SIGNATURES[6].0 == ZIP;
  }

  // ---- Identity ----

  datatype Identity = Identity(sha256: string, size: nat, documentId: nat, sniffed: Option<Format>)

  /** `sha` stands for SHA-256 and `derive` for the UUIDv5 of a digest. */
  datatype Hashing = Hashing(sha: Bytes -> string, derive: string -> nat)

  datatype Update = Accepted | TooLarge | AlreadyFinished

  datatype Finish = Identified(identity: Identity) | EmptyPayload

  function IdentityOf(hashing: Hashing, payload: Bytes): Identity {
    Identity(hashing.sha(payload), |payload|, hashing.derive(hashing.sha(payload)), Sniff(payload))
  }

  class ContentAccumulator {
    const hashing: Hashing
    const maxBytes: nat
    /** The bytes the digest has been fed. */
    var digested: Bytes
    var size: nat
    var prefix: Bytes
    var finished: bool

    constructor (hashing: Hashing, maxBytes: nat)
      requires maxBytes > 0
      ensures this.hashing == hashing && this.maxBytes == maxBytes
      ensures Valid() && digested == [] && size == 0 && !finished
    {
      this.hashing, this.maxBytes := hashing, maxBytes;
      digested, size, prefix, finished := [], 0, [], false;
    }

    /** The prefix is the front of what was digested. A refused chunk is in the size and nowhere else. */
    ghost predicate Valid()
      reads this
    {
      && prefix == Front(digested) && |digested| <= maxBytes
      && (size == |digested| || size > maxBytes)
    }

    method Update(chunk: Bytes) returns (outcome: Update)
      requires Valid()
      modifies this`digested, this`size, this`prefix
      ensures Valid()
      ensures outcome == AlreadyFinished <==> finished
      ensures outcome == AlreadyFinished ==> size == old(size) && digested == old(digested)
      ensures outcome == Accepted <==> !finished && old(size) + |chunk| <= maxBytes
      ensures outcome == Accepted ==> digested == old(digested) + chunk && size == old(size) + |chunk|
      ensures outcome == TooLarge ==> digested == old(digested) && size == old(size) + |chunk|
    {
      if finished { return AlreadyFinished; }
      size := size + |chunk|;
      if size > maxBytes { return TooLarge; }
      digested := digested + chunk;
      if |prefix| < SNIFF_PREFIX {
        var room := SNIFF_PREFIX - |prefix|;
        prefix := prefix + if |chunk| <= room then chunk else chunk[..room];
      }
      outcome := Accepted;
    }

    /** What is returned describes the digested bytes, except that the size counts refused chunks too. */
    method Finish() returns (outcome: Finish)
      requires Valid()
      modifies this`finished
      ensures Valid()
      ensures outcome.EmptyPayload? <==> size == 0
      ensures outcome.EmptyPayload? ==> finished == old(finished)
      ensures outcome.Identified? ==> finished && outcome.identity == IdentityOf(hashing, digested).(size := size)
    {
      if size == 0 { return EmptyPayload; }
      finished := true;
      PrefixIsConclusive(digested);
      var sha256 := hashing.sha(digested);
      outcome := Identified(Identity(sha256, size, hashing.derive(sha256), Sniff(prefix)));
    }
  }

  // ---- Chunk after chunk ----

  /** The accumulator's counters after every chunk in turn, refused ones included. */
  datatype Progress = Progress(digested: Bytes, size: nat, refusals: nat)

  function Fed(maxBytes: nat, chunks: seq<Bytes>): Progress {
    if chunks == [] then Progress([], 0, 0)
    else
      var before, chunk := Fed(maxBytes, chunks[..|chunks| - 1]), chunks[|chunks| - 1];
      if before.size + |chunk| > maxBytes
      then before.(size := before.size + |chunk|, refusals := before.refusals + 1)
      else before.(digested := before.digested + chunk, size := before.size + |chunk|)
  }

  method FeedAll(accumulator: ContentAccumulator, chunks: seq<Bytes>)
    requires accumulator.Valid() && accumulator.size == 0 && accumulator.digested == [] && !accumulator.finished
    modifies accumulator
    ensures accumulator.Valid() && !accumulator.finished
    ensures accumulator.digested == Fed(accumulator.maxBytes, chunks).digested
    ensures accumulator.size == Fed(accumulator.maxBytes, chunks).size
  {
    for i := 0 to |chunks|
      invariant accumulator.Valid() && !accumulator.finished
      invariant accumulator.digested == Fed(accumulator.maxBytes, chunks[..i]).digested
      invariant accumulator.size == Fed(accumulator.maxBytes, chunks[..i]).size
    {
      assert chunks[..i + 1][..i] == chunks[..i];
      var _ := accumulator.Update(chunks[i]);
    }
    assert chunks[..|chunks|] == chunks;
  }

  function Total(chunks: seq<Bytes>): nat {
    if chunks == [] then 0 else Total(chunks[..|chunks| - 1]) + |chunks[|chunks| - 1]|
  }

  lemma {:induction false} FedSize(maxBytes: nat, chunks: seq<Bytes>)
    ensures Fed(maxBytes, chunks).size == Total(chunks)
    ensures Fed(maxBytes, chunks).refusals == 0 <==> Total(chunks) <= maxBytes
    ensures |Fed(maxBytes, chunks).digested| <= maxBytes
    ensures Total(chunks) <= maxBytes ==> |Fed(maxBytes, chunks).digested| == Total(chunks)
  {
    if chunks != [] { FedSize(maxBytes, chunks[..|chunks| - 1]); }
  }

  lemma {:induction false} FedConcatenates(maxBytes: nat, chunks: seq<Bytes>)
    requires Total(chunks) <= maxBytes
    ensures Fed(maxBytes, chunks).digested == Concat(chunks)
  {
    if chunks != [] {
      var front, last := chunks[..|chunks| - 1], chunks[|chunks| - 1];
      FedSize(maxBytes, front);
      FedConcatenates(maxBytes, front);
      assert chunks == front + [last];
      ConcatSum(front, [last]);
      assert Concat([last]) == last + Concat([last][1..]) == last;
    }
  }

  /** A chunk is refused exactly when the running total including it passes the cap: the first such chunk,
      and every one after it. */
  lemma RefusedIffPastCap(maxBytes: nat, chunks: seq<Bytes>, k: nat)
    requires k < |chunks|
    ensures Fed(maxBytes, chunks[..k + 1]).refusals > Fed(maxBytes, chunks[..k]).refusals <==> Total(chunks[..k + 1]) > maxBytes
    ensures Total(chunks[..k]) <= Total(chunks[..k + 1])
  {
    assert chunks[..k + 1][..k] == chunks[..k];
    FedSize(maxBytes, chunks[..k]);
  }

  /** Whatever is digested is the beginning of the payload: the chunks before the first refusal. */
  lemma {:induction false} DigestedIsPrefix(maxBytes: nat, chunks: seq<Bytes>) returns (k: nat)
    ensures k <= |chunks| && Fed(maxBytes, chunks).digested == Concat(chunks[..k]) && Total(chunks[..k]) <= maxBytes
    ensures k == |chunks| || Total(chunks[..k + 1]) > maxBytes
  {
    if Total(chunks) <= maxBytes {
      k := |chunks|;
      assert chunks[..k] == chunks;
      FedConcatenates(maxBytes, chunks);
    } else {
      var front := chunks[..|chunks| - 1];
      FedSize(maxBytes, front);
      k := DigestedIsPrefix(maxBytes, front);
      assert front[..k] == chunks[..k];
      if k < |front| { assert front[..k + 1] == chunks[..k + 1]; } else { assert chunks[..k + 1] == chunks; }
    }
  }

  /** Finishing after a refusal identifies bytes that are not the ones measured. The identity is that of the
      digested bytes exactly when no chunk was refused. */
  lemma IdentityIsFaithfulIff(hashing: Hashing, maxBytes: nat, chunks: seq<Bytes>)
    ensures var fed := Fed(maxBytes, chunks);
            IdentityOf(hashing, fed.digested).(size := fed.size) == IdentityOf(hashing, fed.digested) <==> Total(chunks) <= maxBytes
  {
    FedSize(maxBytes, chunks);
  }

  // ---- Hashing a stream ----

  datatype Hashed = Hashed(identity: Identity) | BadLimit | Oversized | Nothing

  /** Reading stops at the first empty read. */
  function Readable(pieces: seq<Bytes>): seq<Bytes> {
    if pieces == [] || pieces[0] == [] then [] else [pieces[0]] + Readable(pieces[1..])
  }

  function HashOf(hashing: Hashing, payload: Bytes, maxBytes: int): Hashed {
    if maxBytes <= 0 then BadLimit
    else if |payload| > maxBytes then Oversized
    else if payload == [] then Nothing
    else Hashed(IdentityOf(hashing, payload))
  }

  lemma {:induction false} ReadableIsPrefix(pieces: seq<Bytes>)
    ensures |Readable(pieces)| <= |pieces| && Readable(pieces) == pieces[..|Readable(pieces)|]
    ensures |Readable(pieces)| < |pieces| ==> pieces[|Readable(pieces)|] == []
    ensures forall i :: 0 <= i < |Readable(pieces)| ==> pieces[i] != []
  {
    if pieces != [] && pieces[0] != [] { ReadableIsPrefix(pieces[1..]); }
  }

  lemma {:induction false} TotalIsLength(chunks: seq<Bytes>)
    ensures |Concat(chunks)| == Total(chunks)
  {
    if chunks != [] {
      var front, last := chunks[..|chunks| - 1], chunks[|chunks| - 1];
      TotalIsLength(front);
      assert chunks == front + [last];
      ConcatSum(front, [last]);
      assert Concat([last]) == last + Concat([last][1..]) == last;
    }
  }

  lemma {:induction false} TotalGrows(chunks: seq<Bytes>, k: nat)
    requires k <= |chunks|
    ensures Total(chunks[..k]) <= Total(chunks)
  {
    if k < |chunks| {
      TotalGrows(chunks[..|chunks| - 1], k);
      assert chunks[..|chunks| - 1][..k] == chunks[..k];
    } else {
      assert chunks[..k] == chunks;
    }
  }

  /** Feed the reads in turn until the stream ends or the cap is passed. */
  method FeedStream(accumulator: ContentAccumulator, pieces: seq<Bytes>) returns (oversized: bool)
    requires accumulator.Valid() && accumulator.size == 0 && accumulator.digested == [] && !accumulator.finished
    modifies accumulator
    ensures accumulator.Valid() && !accumulator.finished
    ensures oversized <==> Total(Readable(pieces)) > accumulator.maxBytes
    ensures !oversized ==> accumulator.digested == Concat(Readable(pieces)) && accumulator.size == Total(Readable(pieces))
  {
    hide Readable, Front;
    ReadableIsPrefix(pieces);
    ghost var chunks := Readable(pieces);
    var i := 0;
    while i < |pieces| && pieces[i] != []
      invariant 0 <= i <= |chunks|
      invariant accumulator.Valid() && !accumulator.finished
      invariant accumulator.digested == Fed(accumulator.maxBytes, chunks[..i]).digested
      invariant accumulator.size == Fed(accumulator.maxBytes, chunks[..i]).size == Total(chunks[..i]) <= accumulator.maxBytes
    {
      assert chunks[..i + 1][..i] == chunks[..i];
      var outcome := accumulator.Update(pieces[i]);
      if outcome == TooLarge {
        TotalGrows(chunks, i + 1);
        return true;
      }
      i := i + 1;
    }
    assert chunks[..i] == chunks;
    FedConcatenates(accumulator.maxBytes, chunks);
    oversized := false;
  }

  /** Chunking never matters: the outcome is a function of the concatenated payload and the cap alone. */
  method HashStream(hashing: Hashing, pieces: seq<Bytes>, maxBytes: int) returns (result: Hashed)
    ensures result == HashOf(hashing, Concat(Readable(pieces)), maxBytes)
  {
    if maxBytes <= 0 { return BadLimit; }
    var accumulator := new ContentAccumulator(hashing, maxBytes);
    TotalIsLength(Readable(pieces));
    var oversized := FeedStream(accumulator, pieces);
    if oversized { return Oversized; }
    var finish := accumulator.Finish();
    result := if finish.EmptyPayload? then Nothing else Hashed(finish.identity);
  }

  /** What hashing a stream reports: a limit of nothing is refused, then a payload over the limit, then an empty one;
      any other is identified by its digest, its size, the id derived from the digest, and what its bytes look like. */
  lemma HashMeans(hashing: Hashing, payload: Bytes, maxBytes: int)
    ensures var result := HashOf(hashing, payload, maxBytes);
            && (result.BadLimit? <==> maxBytes <= 0)
            && (result.Oversized? <==> 0 < maxBytes < |payload|)
            && (result.Nothing? <==> 0 < maxBytes && |payload| == 0)
            && (result.Hashed? ==>
                  && result.identity.sha256 == hashing.sha(payload) && result.identity.size == |payload|
                  && result.identity.documentId == hashing.derive(hashing.sha(payload)) && result.identity.sniffed == Sniff(payload))
  {
  }

  /** Two payloads that are accepted are one document exactly when they are the same bytes. */
  lemma OneDocumentIffSameBytes(hashing: Hashing, a: Bytes, b: Bytes)
    requires (forall x, y :: hashing.sha(x) == hashing.sha(y) ==> x == y)
    requires (forall x, y :: hashing.derive(x) == hashing.derive(y) ==> x == y)
    ensures IdentityOf(hashing, a).documentId == IdentityOf(hashing, b).documentId <==> a == b
  {
  }

  // ---- Format ----

  predicate IsZipContainer(f: Format) {
    f in {Zip, Xlsx, Docx}
  }

  predicate IsOleContainer(f: Format) {
    f in {Doc, Xls}
  }

  predicate Compatible(declared: Format, sniffed: Format) {
    || declared == sniffed
    || (sniffed == Zip && IsZipContainer(declared))
    || (IsOleContainer(sniffed) && IsOleContainer(declared))
  }

  predicate HasSignature(f: Format) {
    (exists i :: 0 <= i < |SIGNATURES| && SIGNATURES[i].1 == f) || IsZipContainer(f) || IsOleContainer(f)
  }

  datatype Resolution = Resolved(format: Format) | Unsafe | NoFormatAllowed

  /** `mediaType` and `filename` are the formats the two declarations name, when they name one. */
  function ResolveFormat(allowed: set<Format>, mediaType: Option<Format>, filename: Option<Format>, sniffed: Option<Format>): Resolution {
    if allowed == {} then NoFormatAllowed
    else if mediaType.Some? && filename.Some? && !Compatible(filename.value, mediaType.value) && !Compatible(mediaType.value, filename.value)
      then Unsafe
    else
      var declared := if mediaType.Some? then mediaType else filename;
      if sniffed.Some? && declared.Some? && !Compatible(declared.value, sniffed.value) then Unsafe
      else if sniffed.None? && declared.None? then Unsafe
      else
        var resolved := if declared.Some? then declared.value else sniffed.value;
        if resolved in allowed then Resolved(resolved) else Unsafe
  }

  /** The downloader has read the bytes, so for a format that always carries a signature a missing one is
      evidence against it. */
  function Resolve(allowed: set<Format>, mediaType: Option<Format>, filename: Option<Format>, sniffed: Option<Format>): Resolution {
    var resolution := ResolveFormat(allowed, mediaType, filename, sniffed);
    if resolution.Resolved? && sniffed.None? && HasSignature(resolution.format) then Unsafe else resolution
  }

  /** The bytes a file of each format must begin with. */
  predicate BeginsAs(f: Format, payload: Bytes) {
    match f
    case Pdf => PDF <= payload
    case Png => PNG <= payload
    case Jpeg => JPEG <= payload
    case Tiff => TIFF_LITTLE <= payload || TIFF_BIG <= payload
    case Doc => OLE <= payload
    case Xls => OLE <= payload
    case Zip => ZIP <= payload
    case Xlsx => ZIP <= payload
    case Docx => ZIP <= payload
    case Csv => Sniff(payload) == None
    case Json => Sniff(payload) == None
    case Xml => Sniff(payload) == None
    case Html => Sniff(payload) == None
  }

  lemma SniffMeansSignature(payload: Bytes)
    ensures Sniff(payload).Some? ==> Sniff(payload).value in {Pdf, Png, Jpeg, Tiff, Doc, Zip} && BeginsAs(Sniff(payload).value, payload)
  {
    SniffInFinds(SIGNATURES, payload);
    if Sniff(payload).Some? {
      var i :| 0 <= i < |SIGNATURES| && SIGNATURES[i].0 <= payload && Sniff(payload) == Some(SIGNATURES[i].1);
    }
  }

  lemma SignedFormats(f: Format)
    ensures HasSignature(f) <==> f !in {Csv, Json, Xml, Html}
  {
    assert SIGNATURES[0].1 == Pdf && SIGNATURES[1].1 == Png && SIGNATURES[2].1 == Jpeg && SIGNATURES[3].1 == Tiff;
  }

  /** A declared format can hold bytes that look like another: an archive any of the archive formats, an OLE file either
      of the two. */
  ghost predicate CanHold(declared: Format, looks: Format) {
    declared == looks || (looks == Zip && declared in {Xlsx, Docx}) || {declared, looks} == {Doc, Xls}
  }

  /** When a download is stored, and as what: the media type's format, or failing that the file name's, or failing both
      what its bytes look like; unless the two declarations exclude each other, the declaration and the bytes do, the
      format is not allowed, or a format that always has a signature has none. */
  lemma ResolutionMeans(allowed: set<Format>, mediaType: Option<Format>, filename: Option<Format>, sniffed: Option<Format>, f: Format)
    requires sniffed.Some? ==> sniffed.value !in {Xls, Xlsx, Docx}
    ensures Resolve(allowed, mediaType, filename, sniffed) == Resolved(f)
            <==> && f in allowed
                 && Some(f) == (if mediaType.Some? then mediaType else if filename.Some? then filename else sniffed)
                 && (mediaType.Some? && filename.Some? ==>
                       CanHold(filename.value, mediaType.value) || CanHold(mediaType.value, filename.value))
                 && (sniffed.Some? ==> CanHold(f, sniffed.value))
                 && (sniffed.None? ==> f in {Csv, Json, Xml, Html})
  {
    SignedFormats(f);
    hide HasSignature;
  }

  /** Nothing is stored under a format its bytes contradict: a document stored as a PDF begins as one, so a
      login page served as a PDF is refused, and no recognisable binary is stored as text. */
  lemma StoredFormatFitsTheBytes(allowed: set<Format>, mediaType: Option<Format>, filename: Option<Format>, payload: Bytes)
    requires Resolve(allowed, mediaType, filename, Sniff(payload)).Resolved?
    ensures var format := Resolve(allowed, mediaType, filename, Sniff(payload)).format;
            BeginsAs(format, payload) && format in allowed
  {
    SniffMeansSignature(payload);
    SignedFormats(Resolve(allowed, mediaType, filename, Sniff(payload)).format);
  }

  /** And a download that says what it is, in a format the source may yield, is accepted: resolution refuses
      only contradictions, unknowns and formats not allowed. */
  lemma HonestDownloadIsAccepted(allowed: set<Format>, mediaType: Option<Format>, filename: Option<Format>, payload: Bytes, format: Format)
    requires format in allowed && BeginsAs(format, payload)
    requires mediaType in {None, Some(format)} && filename in {None, Some(format)} && (mediaType.Some? || filename.Some?)
    ensures Resolve(allowed, mediaType, filename, Sniff(payload)) == Resolved(format)
  {
    SniffInFinds(SIGNATURES, payload);
    SignedFormats(format);
    SignatureIsSniffed(format, payload);
  }

  lemma SignatureIsSniffed(format: Format, payload: Bytes)
    requires BeginsAs(format, payload)
    ensures format in {Csv, Json, Xml, Html} <==> Sniff(payload).None?
    ensures Sniff(payload).Some? ==> Compatible(format, Sniff(payload).value)
  {
    SniffInFinds(SIGNATURES, payload);
    var at: nat := match format
      case Pdf => 0 case Png => 1 case Jpeg => 2 case Tiff => (if TIFF_LITTLE <= payload then 3 else 4)
      case Doc => 5 case Xls => 5 case Zip => 6 case Xlsx => 6 case Docx => 6
      case Csv => 0 case Json => 0 case Xml => 0 case Html => 0;
    if format !in {Csv, Json, Xml, Html} {
      assert SIGNATURES[at].0 <= payload;
      var i :| 0 <= i < |SIGNATURES| && SIGNATURES[i].0 <= payload && Sniff(payload) == Some(SIGNATURES[i].1);
      SignaturesExcludeEachOther(payload, i, at);
    }
  }
}
