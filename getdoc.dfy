/** Fetching a stored document (package getDoc): the path of its copy on
    disk, the resolution of an ordinal or document number to a document
    number, the raw file and the body text. Reading a file and decoding
    XML are parameters: `files` maps a path to its contents and `parse`
    stands for xml.Unmarshal. */
module GetDoc {
  import opened Seqs
  import opened GoStrings
  import opened Ext
  import opened IndexEngine

  datatype DocError =
    | IdNotFound(id: int)
    | DocNoNotFound(docNo: string)
    | ReadFailed(path: string)

  datatype Result<T> = Ok(value: T) | Err(error: DocError)

  // ---------------------------------------------------------------------
  // Paths
  // ---------------------------------------------------------------------

  /** The file the indexer writes a document to: directories named by the
      year, month and day digits of its number. */
  function StoredPath(dir: string, docno: string): string
    requires |docno| >= 8
  {
    dir + "/" + docno[6..8] + "/" + docno[2..4] + "/" + docno[4..6] + "/" + docno + ".xml"
  }

  /** GetPath: `dir` without one trailing slash, then the year, month and
      day strings of the document's metadata entry (empty for a number
      that is not indexed) and the number itself. It never fails and does
      not look at `mode`. */
  function GetPath(dir: string, mode: string, q: string, meta: Meta): (r: Result<string>)
    ensures r.Ok?
  {
    var e := EntryOf(meta, q);
    Ok(TrimSuffix(dir, "/") + "/" + e.date.year + "/" + e.date.month + "/" + e.date.day + "/" + q + ".xml")
  }

  /** The path does not depend on the mode. */
  lemma GetPathIgnoresMode(dir: string, m1: string, m2: string, q: string, meta: Meta)
    ensures GetPath(dir, m1, q, meta) == GetPath(dir, m2, q, meta)
  {
  }

  /** A directory named with or without its trailing slash gives the same
      path. */
  lemma GetPathTrailingSlash(dir: string, mode: string, q: string, meta: Meta)
    requires dir == [] || dir[|dir| - 1] != '/'
    ensures GetPath(dir + "/", mode, q, meta) == GetPath(dir, mode, q, meta)
  {
    assert (dir + "/")[..|dir|] == dir;
  }

  /** For an indexed document, the path read back is the path the indexer
      wrote it to. */
  lemma GetPathFindsStoredCopy(dir: string, mode: string, q: string, meta: Meta, id: nat, docs: seq<seq<string>>)
    requires MetaConsistent(meta, id, docs) && q in meta.main
    requires dir == [] || dir[|dir| - 1] != '/'
    ensures |q| >= 8 && GetPath(dir, mode, q, meta) == Ok(StoredPath(dir, q))
  {
  }

  /** For a number that is not indexed, the date directories are empty. */
  lemma GetPathOfUnknown(dir: string, mode: string, q: string, meta: Meta)
    requires q !in meta.main
    ensures GetPath(dir, mode, q, meta) == Ok(TrimSuffix(dir, "/") + "////" + q + ".xml")
  {
    var d := TrimSuffix(dir, "/");
    assert d + "/" + "" + "/" + "" + "/" + "" + "/" + q + ".xml" == d + "////" + q + ".xml";
  }

  // ---------------------------------------------------------------------
  // Resolving the key
  // ---------------------------------------------------------------------

  /** The document number a request names. In "id" mode the key is an
      ordinal (strconv.Atoi, errors ignored) and must be below the number
      of documents; in every other mode it is a document number and must
      be indexed. */
  function ResolveKey(mode: string, q: string, meta: Meta): (r: Result<string>)
    requires mode == "id" ==> Atoi(q) >= 0
    ensures mode == "id" ==> (r.Ok? <==> Atoi(q) < |meta.docNos|)
    ensures mode == "id" && r.Ok? ==> r.value == meta.docNos[Atoi(q)]
    ensures mode == "id" && r.Err? ==> r.error == IdNotFound(Atoi(q))
    ensures mode != "id" ==> (r.Ok? <==> q in meta.main)
    ensures mode != "id" && r.Ok? ==> r.value == q
    ensures mode != "id" && r.Err? ==> r.error == DocNoNotFound(q)
  {
    if mode == "id" then
      var id := Atoi(q);
      if id >= |meta.docNos| then Err(IdNotFound(id)) else Ok(meta.docNos[id])
    else if q !in meta.main then Err(DocNoNotFound(q))
    else Ok(q)
  }

  /** On a consistent index every resolved key is an indexed document
      number. */
  lemma ResolvedKeyIsIndexed(mode: string, q: string, meta: Meta, id: nat, docs: seq<seq<string>>)
    requires mode == "id" ==> Atoi(q) >= 0
    requires MetaConsistent(meta, id, docs)
    ensures ResolveKey(mode, q, meta).Ok? ==> ResolveKey(mode, q, meta).value in meta.main
  {
  }

  /** Asking by the ordinal recorded for a document number gives back that
      document number, unless a later document reused the number. */
  lemma IdRoundTrip(n: string, meta: Meta, id: nat, docs: seq<seq<string>>)
    requires MetaConsistent(meta, id, docs) && n in meta.main
    requires meta.main[n].id <= MaxInt64
    ensures ResolveKey("id", DecimalString(meta.main[n].id), meta) == Ok(n)
  {
    AtoiOfDecimalString(meta.main[n].id);
  }

  /** An ordinal whose digits overflow 64 bits is clamped by Atoi to the
      largest int, however the key goes on, and so is not found. */
  lemma ResolveOverflowingId(digits: string, rest: string, meta: Meta)
    requires AllDigits(digits) && DecimalValue(digits) > MaxUint64
    requires |meta.docNos| <= MaxInt64
    ensures Atoi(digits + rest) == MaxInt64
    ensures ResolveKey("id", digits + rest, meta) == Err(IdNotFound(MaxInt64))
  {
    AtoiOverflowingDigits([], digits, rest);
    assert [] + (digits + rest) == digits + rest;
  }

  // ---------------------------------------------------------------------
  // Raw document and body text
  // ---------------------------------------------------------------------

  /** GetRaw: the stored file of the document the request names. */
  function GetRaw(dir: string, mode: string, q: string, meta: Meta, files: map<string, string>): (r: Result<string>)
    requires mode == "id" ==> Atoi(q) >= 0
    ensures ResolveKey(mode, q, meta).Err? ==> r == Err(ResolveKey(mode, q, meta).error)
    ensures r.Ok? ==>
      ResolveKey(mode, q, meta).Ok? &&
      (var path := GetPath(dir, "docno", ResolveKey(mode, q, meta).value, meta).value;
       path in files && r.value == files[path])
  {
    match ResolveKey(mode, q, meta)
    case Err(e) => Err(e)
    case Ok(docno) =>
      var path := GetPath(dir, "docno", docno, meta).value;
      if path !in files then Err(ReadFailed(path)) else Ok(files[path])
  }

  /** On a consistent index, a document named by its number is read from
      the file the indexer wrote it to. */
  lemma GetRawReadsStoredCopy(dir: string, q: string, meta: Meta, files: map<string, string>, id: nat, docs: seq<seq<string>>)
    requires MetaConsistent(meta, id, docs) && q in meta.main
    requires dir == [] || dir[|dir| - 1] != '/'
    ensures |q| >= 8
    ensures GetRaw(dir, "docno", q, meta, files) ==
      if StoredPath(dir, q) in files then Ok(files[StoredPath(dir, q)])
      else Err(ReadFailed(StoredPath(dir, q)))
  {
    GetPathFindsStoredCopy(dir, "docno", q, meta, id, docs);
  }

  /** The body text: TEXT, TABLE and GRAPHIC paragraphs, each list joined,
      in that order, with every newline removed. */
  function BodyText(doc: DocTree): (t: string)
    ensures '\n' !in t
  {
    RemoveNewlines(Flatten(doc.text) + Flatten(doc.table) + Flatten(doc.graphic))
  }

  /** The indexed text is the headline followed by the body, newlines
      aside. */
  lemma IndexTextIsHeadlineAndBody(doc: DocTree)
    ensures RemoveNewlines(IndexText(doc)) == RemoveNewlines(Flatten(doc.headline)) + BodyText(doc)
  {
    var h, x, t, g := Flatten(doc.headline), Flatten(doc.text), Flatten(doc.table), Flatten(doc.graphic);
    assert IndexText(doc) == h + (x + t + g);
    RemoveNewlinesAppend(h, x + t + g);
  }

  /** GetBody: resolves the key, reads the stored file through GetRaw in
      "docno" mode, decodes it and returns its body text. */
  function GetBody(dir: string, mode: string, q: string, meta: Meta, files: map<string, string>,
                   parse: string -> DocTree): (r: Result<string>)
    requires mode == "id" ==> Atoi(q) >= 0
    ensures ResolveKey(mode, q, meta).Err? ==> r == Err(ResolveKey(mode, q, meta).error)
    ensures r.Ok? ==> '\n' !in r.value
  {
    match ResolveKey(mode, q, meta)
    case Err(e) => Err(e)
    case Ok(docno) =>
      match GetRaw(dir, "docno", docno, meta, files)
      case Err(e) => Err(e)
      case Ok(raw) => Ok(BodyText(parse(raw)))
  }

  /** On a consistent index, asking by ordinal and asking by the document
      number stored at that ordinal give the same body. */
  lemma GetBodyModesAgree(dir: string, i: nat, meta: Meta, files: map<string, string>,
                          parse: string -> DocTree, id: nat, docs: seq<seq<string>>)
    requires MetaConsistent(meta, id, docs) && i < |meta.docNos| && i <= MaxInt64
    ensures GetBody(dir, "id", DecimalString(i), meta, files, parse) ==
      GetBody(dir, "docno", meta.docNos[i], meta, files, parse)
  {
    AtoiOfDecimalString(i);
  }
}
