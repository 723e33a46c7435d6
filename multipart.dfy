/** The multipart/mixed framing of section 5.1.1 of RFC 2046 as Go's mime/multipart
    writes and reads it: the Writer that emits a sequence of parts, the incremental
    reader that walks such a body part by part, and the media-type parameters of the
    Content-Type that announces the boundary. */
module Multipart {
  import opened Wrappers
  import opened Text

  datatype Field = Field(name: string, value: string)

  /** One part of a multipart body: its header fields, in order, and its payload. */
  datatype MimePart = MimePart(header: seq<Field>, payload: string)

  /** The delimiter that ends a part's payload. */
  function Delimiter(b: string): string {
    CRLF + "--" + b
  }

  /** What the writer's Close appends. */
  function Closing(b: string): string {
    Delimiter(b) + "--" + CRLF
  }

  /** The boundary line that opens part `index`: the first part has no CRLF before it. */
  function Opening(b: string, index: nat): string {
    if index == 0 then "--" + b + CRLF else Delimiter(b) + CRLF
  }

  /** One header line. */
  function FieldLine(f: Field): string {
    f.name + ": " + f.value + CRLF
  }

  function FieldLines(fs: seq<Field>): string {
    if fs == [] then "" else fs[0].name + ": " + fs[0].value + CRLF + FieldLines(fs[1..])
  }

  function EncodePart(p: MimePart): string {
    FieldLines(p.header) + CRLF + p.payload
  }

  /** What the writer has emitted once the parts `ps` are written (CreatePart and Write). */
  function Written(b: string, ps: seq<MimePart>): string {
    if ps == [] then ""
    else Written(b, ps[..|ps| - 1]) + Opening(b, |ps| - 1) + EncodePart(ps[|ps| - 1])
  }

  /** The whole body: the parts, then what Close appends. */
  function Serialize(b: string, ps: seq<MimePart>): string {
    Written(b, ps) + Closing(b)
  }

  /** A field line appended to the lines of the fields before it. */
  lemma {:induction false} FieldLinesSnoc(fs: seq<Field>, i: nat)
    requires i < |fs|
    ensures FieldLines(fs[..i + 1]) == FieldLines(fs[..i]) + FieldLine(fs[i])
    decreases i
  {
    if i == 0 {
      assert fs[..1] == [fs[0]];
      assert fs[..1][1..] == [];
    } else {
      FieldLinesSnoc(fs[1..], i - 1);
      assert fs[..i + 1][1..] == fs[1..][..i];
      assert fs[..i][1..] == fs[1..][..i - 1];
    }
  }

  lemma Assoc(a: string, b: string, c: string)
    ensures a + (b + c) == a + b + c
  {
  }

  /** Creating a part appends its boundary line, its header lines and the empty line. */
  lemma WrittenCreate(b: string, ps: seq<MimePart>, header: seq<Field>)
    ensures Written(b, ps + [MimePart(header, "")]) == Written(b, ps) + Opening(b, |ps|) + FieldLines(header) + CRLF
  {
    var ps' := ps + [MimePart(header, "")];
    assert ps'[..|ps'| - 1] == ps;
  }

  /** Writing to the last part created appends to its payload. */
  lemma WrittenAppend(b: string, ps: seq<MimePart>, data: string)
    requires ps != []
    ensures var last := ps[|ps| - 1];
      Written(b, ps[..|ps| - 1] + [MimePart(last.header, last.payload + data)]) == Written(b, ps) + data
  {
    var last := ps[|ps| - 1];
    var ps' := ps[..|ps| - 1] + [MimePart(last.header, last.payload + data)];
    assert ps'[..|ps'| - 1] == ps[..|ps| - 1];
  }

  /** multipart.Writer writing into a bytes.Buffer: `buf` is what has been written, and
      `parts` the parts it holds so far (the last one still open to Write). */
  class Writer {
    const boundary: string
    var buf: string
    var count: nat
    ghost var parts: seq<MimePart>

    ghost predicate Valid()
      reads this
    {
      |parts| == count && buf == Written(boundary, parts)
    }

    /** NewWriter on an empty buffer, with SetBoundary(boundary). */
    constructor (boundary: string)
      ensures Valid() && this.boundary == boundary && parts == []
    {
      this.boundary := boundary;
      buf := "";
      count := 0;
      parts := [];
    }

    /** CreatePart: a boundary line (after a CRLF unless it is the first part), one line
        per header field and the empty line. */
    method CreatePart(header: seq<Field>)
      requires Valid()
      modifies this
      ensures Valid() && parts == old(parts) + [MimePart(header, "")]
    {
      var b := if count > 0 then CRLF + "--" + boundary + CRLF else "--" + boundary + CRLF;
      ghost var opening := Opening(boundary, count);
      assert b == opening + FieldLines(header[..0]);
      for i := 0 to |header|
        invariant b == opening + FieldLines(header[..i])
        invariant unchanged(this)
      {
        FieldLinesSnoc(header, i);
        Assoc(opening, FieldLines(header[..i]), FieldLine(header[i]));
        b := b + FieldLine(header[i]);
      }
      assert header[..|header|] == header;
      ghost var fields := FieldLines(header);
      b := b + CRLF;
      WrittenCreate(boundary, parts, header);
      Assoc(buf, opening + fields, CRLF);
      Assoc(buf, opening, fields);
      buf := buf + b;
      parts := parts + [MimePart(header, "")];
      count := count + 1;
    }

    /** Write on the part created last: the data goes at the end of its payload. */
    method Write(data: string)
      requires Valid() && count > 0
      modifies this
      ensures Valid() && count == old(count)
      ensures parts == old(parts[..count - 1] + [MimePart(parts[count - 1].header, parts[count - 1].payload + data)])
    {
      WrittenAppend(boundary, parts, data);
      buf := buf + data;
      parts := parts[..count - 1] + [MimePart(parts[count - 1].header, parts[count - 1].payload + data)];
    }

    /** Close: the closing delimiter ends the body. */
    method Close()
      requires Valid()
      modifies this
      ensures parts == old(parts) && buf == Serialize(boundary, parts)
    {
      buf := buf + CRLF + "--" + boundary + "--" + CRLF;
    }
  }

  function FieldValue(fs: seq<Field>, name: string): Option<string> {
    if fs == [] then None
    else if fs[0].name == name then Some(fs[0].value)
    else FieldValue(fs[1..], name)
  }

  /** The value of the first field named `name`. */
  lemma {:induction false} FieldValueAt(fs: seq<Field>, k: nat, name: string)
    requires k < |fs| && fs[k].name == name
    requires forall j :: 0 <= j < k ==> fs[j].name != name
    ensures FieldValue(fs, name) == Some(fs[k].value)
    decreases k
  {
    if k > 0 {
      FieldValueAt(fs[1..], k - 1, name);
    }
  }

  // ---------------------------------------------------------------------------
  // The reader

  /** One call of the reader's NextPart: the end of the parts, a part and what follows
      the delimiter after it, or a framing error. */
  datatype Step = End | Next(part: MimePart, rest: string) | Broken(reason: string)

  function ParseField(line: string): Option<Field> {
    match Find(line, ":")
    case None => None
    case Some(c) => Some(Field(line[..c], TrimSpace(line[c + 1..])))
  }

  /** Header lines up to the empty line, and the payload after it. */
  function ParseFields(s: string): Option<(seq<Field>, string)>
    decreases |s|
  {
    match Find(s, CRLF)
    case None => None
    case Some(k) =>
      if k == 0 then Some(([], s[2..]))
      else match ParseField(s[..k])
        case None => None
        case Some(f) =>
          match ParseFields(s[k + 2..])
          case None => None
          case Some(r) => Some(([f] + r.0, r.1))
  }

  function ReadPart(b: string, s: string): (r: Step)
    ensures r.Next? ==> |r.rest| < |s|
  {
    match Find(s, Delimiter(b))
    case None => Broken("multipart: NextPart: EOF")
    case Some(k) =>
      match ParseFields(s[..k])
      case None => Broken("multipart: malformed MIME header")
      case Some(fp) => Next(MimePart(fp.0, fp.1), s[k + |Delimiter(b)|..])
  }

  /** NextPart on the unread input `s`; `first` holds before the first part is read. */
  function NextPart(b: string, s: string, first: bool): (r: Step)
    ensures r.Next? ==> |r.rest| < |s|
  {
    if b == "" then Broken("multipart: boundary is empty")
    else if first then
      if IsPrefix("--" + b + CRLF, s) then ReadPart(b, s[|b| + 4..])
      else if IsPrefix(Closing(b), s) then End
      else Broken("multipart: expecting a new Part")
    else
      if IsPrefix("--", s) then End
      else if IsPrefix(CRLF, s) then ReadPart(b, s[2..])
      else Broken("multipart: expecting a new Part")
  }

  /** NextPart called until the end of the parts or the first error. */
  function ReadAll(b: string, s: string, first: bool): Attempt<seq<MimePart>>
    decreases |s|, if first then 1 else 0
  {
    match NextPart(b, s, first)
    case End => Done([])
    case Broken(reason) => Fail(reason)
    case Next(p, rest) =>
      match ReadAll(b, rest, false)
      case Fail(reason) => Fail(reason)
      case Done(ps) => Done([p] + ps)
  }

  // ---------------------------------------------------------------------------
  // Writing then reading gives the parts back

  /** A header field the reader gives back as written. */
  predicate ValidField(f: Field) {
    && ':' !in f.name && '\r' !in f.name && '\r' !in f.value
    && Trimmed(f.value)
  }

  predicate ValidHeader(fs: seq<Field>) {
    forall i :: 0 <= i < |fs| ==> ValidField(fs[i])
  }

  /** A part the reader gives back as written: its header fields read back, and the
      delimiter does not occur in the part as written. */
  ghost predicate Delimited(b: string, p: MimePart) {
    ValidHeader(p.header) && OccursOnlyAtEnd(EncodePart(p), Delimiter(b))
  }

  lemma ParseFieldRoundTrip(f: Field)
    requires ValidField(f)
    ensures ParseField(f.name + ": " + f.value) == Some(f)
  {
    var line := f.name + ": " + f.value;
    assert line == f.name + ":" + (" " + f.value);
    OccursOnlyAtEndByFirstChar(f.name, ":");
    FindAfter(f.name, ":", " " + f.value);
    assert line[..|f.name|] == f.name;
    assert line[|f.name| + 1..] == " " + f.value;
    TrimSpaceSkipsBlank(f.value);
    TrimSpaceOfTrimmed(f.value);
  }

  /** The empty line ends the header; the payload is what follows it. */
  lemma ParseFieldsAtEmptyLine(payload: string)
    ensures ParseFields(CRLF + payload) == Some(([], payload))
  {
    OccursOnlyAtEndByFirstChar("", CRLF);
    FindAfter("", CRLF, payload);
    assert "" + CRLF + payload == CRLF + payload;
    assert (CRLF + payload)[2..] == payload;
  }

  /** A header line is parsed once, and the reader goes on after its CRLF. */
  lemma ParseFieldsAtLine(f: Field, tail: string)
    requires ValidField(f)
    ensures ParseFields(f.name + ": " + f.value + CRLF + tail) ==
      match ParseFields(tail)
      case None => None
      case Some(r) => Some(([f] + r.0, r.1))
  {
    var line := f.name + ": " + f.value;
    var s := line + CRLF + tail;
    assert '\r' !in line;
    OccursOnlyAtEndByFirstChar(line, CRLF);
    FindAfter(line, CRLF, tail);
    assert |line| > 0;
    assert s[..|line|] == line;
    assert s[|line| + 2..] == tail;
    ParseFieldRoundTrip(f);
  }

  lemma ValidHeaderTail(fs: seq<Field>)
    requires fs != [] && ValidHeader(fs)
    ensures ValidField(fs[0]) && ValidHeader(fs[1..])
  {
    forall i | 0 <= i < |fs[1..]| ensures ValidField(fs[1..][i]) {
      assert fs[1..][i] == fs[i + 1];
    }
  }

  lemma {:induction false} ParseFieldsRoundTrip(fs: seq<Field>, payload: string)
    requires ValidHeader(fs)
    ensures ParseFields(FieldLines(fs) + CRLF + payload) == Some((fs, payload))
    decreases |fs|
  {
    if fs == [] {
      assert FieldLines(fs) + CRLF + payload == CRLF + payload;
      ParseFieldsAtEmptyLine(payload);
    } else {
      var f := fs[0];
      var tail := FieldLines(fs[1..]) + CRLF + payload;
      assert FieldLines(fs) + CRLF + payload == f.name + ": " + f.value + CRLF + tail;
      ParseFieldsAtLine(f, tail);
      ValidHeaderTail(fs);
      ParseFieldsRoundTrip(fs[1..], payload);
      assert [f] + fs[1..] == fs;
    }
  }

  lemma ReadPartRoundTrip(b: string, p: MimePart, rest: string)
    requires Delimited(b, p)
    ensures ReadPart(b, EncodePart(p) + Delimiter(b) + rest) == Next(p, rest)
  {
    var e := EncodePart(p);
    var s := e + Delimiter(b) + rest;
    FindAfter(e, Delimiter(b), rest);
    assert s[..|e|] == e;
    assert s[|e| + |Delimiter(b)|..] == rest;
    ParseFieldsRoundTrip(p.header, p.payload);
  }

  /** What follows the delimiter after a part, when the parts `ps` are still to come. */
  function Tail(b: string, ps: seq<MimePart>): string {
    if ps == [] then "--" + CRLF else CRLF + EncodePart(ps[0]) + Delimiter(b) + Tail(b, ps[1..])
  }

  /** Writing one more part after the first appends its delimiter line and the part. */
  lemma WrittenSnoc(b: string, qs: seq<MimePart>, r: MimePart)
    requires qs != []
    ensures Written(b, qs + [r]) == Written(b, qs) + Delimiter(b) + CRLF + EncodePart(r)
  {
    var qs' := qs + [r];
    assert qs'[..|qs'| - 1] == qs;
    assert qs'[|qs'| - 1] == r;
  }

  /** The string steps of one more part moved from the tail into the written prefix. */
  lemma Rejoin(x: string, y: string, w: string, d: string, c: string, e: string, t: string, tl: string)
    requires x == y + d + t
    requires y == w + d + c + e
    requires tl == c + e + d + t
    ensures x == w + d + tl
  {
    assert w + d + c + e + d + t == w + d + (c + e + d + t);
  }

  lemma TailCons(b: string, rs: seq<MimePart>)
    requires rs != []
    ensures Tail(b, rs) == CRLF + EncodePart(rs[0]) + Delimiter(b) + Tail(b, rs[1..])
  {
  }

  lemma {:induction false} WrittenSplit(b: string, qs: seq<MimePart>, rs: seq<MimePart>)
    requires qs != []
    ensures Written(b, qs + rs) + Closing(b) == Written(b, qs) + Delimiter(b) + Tail(b, rs)
    decreases |rs|
  {
    if rs == [] {
      assert qs + rs == qs;
    } else {
      var qs' := qs + [rs[0]];
      assert qs' + rs[1..] == qs + rs;
      WrittenSplit(b, qs', rs[1..]);
      WrittenSnoc(b, qs, rs[0]);
      TailCons(b, rs);
      Rejoin(Written(b, qs + rs) + Closing(b), Written(b, qs'), Written(b, qs), Delimiter(b), CRLF,
             EncodePart(rs[0]), Tail(b, rs[1..]), Tail(b, rs));
    }
  }

  lemma {:induction false} ReadTail(b: string, ps: seq<MimePart>)
    requires b != ""
    requires forall i :: 0 <= i < |ps| ==> Delimited(b, ps[i])
    ensures ReadAll(b, Tail(b, ps), false) == Done(ps)
    decreases |ps|
  {
    var s := Tail(b, ps);
    if ps != [] {
      var after := EncodePart(ps[0]) + Delimiter(b) + Tail(b, ps[1..]);
      assert s == CRLF + after;
      assert s[2..] == after;
      assert !IsPrefix("--", s) by { assert s[0] == '\r'; }
      assert IsPrefix(CRLF, s);
      ReadPartRoundTrip(b, ps[0], Tail(b, ps[1..]));
      ReadTail(b, ps[1..]);
      assert [ps[0]] + ps[1..] == ps;
    }
  }

  /** A non-empty body is the first boundary line, the first part, its delimiter and the tail. */
  lemma SerializeFirst(b: string, ps: seq<MimePart>)
    requires ps != []
    ensures Serialize(b, ps) == "--" + b + CRLF + (EncodePart(ps[0]) + Delimiter(b) + Tail(b, ps[1..]))
  {
    assert [ps[0]] + ps[1..] == ps;
    WrittenSplit(b, [ps[0]], ps[1..]);
    WrittenOne(b, ps[0]);
    var o, e, d, t := "--" + b + CRLF, EncodePart(ps[0]), Delimiter(b), Tail(b, ps[1..]);
    assert Serialize(b, ps) == o + e + d + t;
    Assoc(o, e + d, t);
    Assoc(o, e, d);
  }

  /** A body of one part is its boundary line and the part. */
  lemma WrittenOne(b: string, p: MimePart)
    ensures Written(b, [p]) == "--" + b + CRLF + EncodePart(p)
  {
    assert [p][..0] == [];
  }

  /** A body with no parts reads back as none. */
  lemma EmptyEnvelope(b: string)
    requires b != ""
    ensures ReadAll(b, Serialize(b, []), true) == Done([])
  {
    var s := Serialize(b, []);
    assert s == Closing(b);
    assert !IsPrefix("--" + b + CRLF, s) by { assert s[0] == '\r'; }
  }

  /** The first part of a non-empty body is read back, leaving the tail. */
  lemma FirstPartRead(b: string, ps: seq<MimePart>)
    requires b != "" && ps != [] && Delimited(b, ps[0])
    ensures NextPart(b, Serialize(b, ps), true) == Next(ps[0], Tail(b, ps[1..]))
  {
    var s := Serialize(b, ps);
    var after := EncodePart(ps[0]) + Delimiter(b) + Tail(b, ps[1..]);
    SerializeFirst(b, ps);
    assert IsPrefix("--" + b + CRLF, s);
    assert s[|b| + 4..] == after;
    ReadPartRoundTrip(b, ps[0], Tail(b, ps[1..]));
  }

  /** Reading what the writer emitted gives back every part, in order. */
  lemma EnvelopeRoundTrip(b: string, ps: seq<MimePart>)
    requires b != ""
    requires forall i :: 0 <= i < |ps| ==> Delimited(b, ps[i])
    ensures ReadAll(b, Serialize(b, ps), true) == Done(ps)
  {
    if ps == [] {
      EmptyEnvelope(b);
    } else {
      FirstPartRead(b, ps);
      ReadTail(b, ps[1..]);
      assert [ps[0]] + ps[1..] == ps;
    }
  }

  // ---------------------------------------------------------------------------
  // Media type parameters (mime.ParseMediaType, simplified)

  /** The parameters of a Content-Type value: a non-empty media type, then
      "; key=value" pairs with non-empty keys and values and no key twice. */
  function ParseMediaType(v: string): Attempt<map<string, string>> {
    var semi := Find(v, ";");
    var mediaType := TrimSpace(if semi.Some? then v[..semi.value] else v);
    if mediaType == "" then Fail("mime: no media type")
    else if semi.None? then Done(map[])
    else ParseParams(v[semi.value + 1..], map[])
  }

  function ParseParams(s: string, acc: map<string, string>): Attempt<map<string, string>>
    decreases |s|
  {
    var semi := Find(s, ";");
    var kv := TrimSpace(if semi.Some? then s[..semi.value] else s);
    match Find(kv, "=")
    case None => Fail("mime: invalid media parameter")
    case Some(e) =>
      var key := TrimSpace(kv[..e]);
      var value := TrimSpace(kv[e + 1..]);
      if key == "" || value == "" then Fail("mime: invalid media parameter")
      else if key in acc then Fail("mime: duplicate parameter name")
      else if semi.None? then Done(acc[key := value])
      else ParseParams(s[semi.value + 1..], acc[key := value])
  }

  lemma FindAbsent(s: string, c: char)
    requires c !in s
    ensures Find(s, [c]).None?
  {
    forall j | 0 <= j < |s|
      ensures !IsPrefix([c], s[j..])
    {
      assert s[j..][0] == s[j];
    }
  }

  /** A media type followed by parameters: the parameters are what is parsed. */
  lemma MediaTypeThenParams(t: string, rest: string)
    requires t != [] && ';' !in t && Trimmed(t)
    ensures ParseMediaType(t + ";" + rest) == ParseParams(rest, map[])
  {
    var v := t + ";" + rest;
    OccursOnlyAtEndByFirstChar(t, ";");
    FindAfter(t, ";", rest);
    assert v[..|t|] == t;
    assert v[|t| + 1..] == rest;
    TrimSpaceOfTrimmed(t);
  }

  /** A "key=value" pair after a blank holds no ';' and trims to the pair. */
  lemma PairAfterBlank(key: string, value: string)
    requires Trimmed(key) && Trimmed(value) && key != [] && value != []
    requires ';' !in key && ';' !in value
    ensures Find(" " + (key + "=" + value), ";").None?
    ensures TrimSpace(" " + (key + "=" + value)) == key + "=" + value
  {
    var kv := key + "=" + value;
    var s := " " + kv;
    forall j | 0 <= j < |s| ensures s[j] != ';' {
      if 1 <= j < 1 + |key| {
        assert s[j] == key[j - 1];
      } else if j > 1 + |key| {
        assert s[j] == value[j - 2 - |key|];
      }
    }
    FindAbsent(s, ';');
    TrimSpaceSkipsBlank(kv);
    assert kv[0] == key[0] && kv[|kv| - 1] == value[|value| - 1];
    TrimSpaceOfTrimmed(kv);
  }

  /** A key with no '=' is split from its value at the first '='. */
  lemma PairSplits(key: string, value: string)
    requires '=' !in key
    ensures Find(key + "=" + value, "=") == Some(|key|)
    ensures (key + "=" + value)[..|key|] == key && (key + "=" + value)[|key| + 1..] == value
  {
    OccursOnlyAtEndByFirstChar(key, "=");
    FindAfter(key, "=", value);
  }

  /** One last "key=value" parameter, after a blank, is added to those already read. */
  lemma LastParam(key: string, value: string, acc: map<string, string>)
    requires key != [] && value != [] && Trimmed(key) && Trimmed(value)
    requires ';' !in key && ';' !in value && '=' !in key && key !in acc
    ensures ParseParams(" " + (key + "=" + value), acc) == Done(acc[key := value])
  {
    PairAfterBlank(key, value);
    PairSplits(key, value);
    TrimSpaceOfTrimmed(key);
    TrimSpaceOfTrimmed(value);
  }

  /** The name of the boundary parameter is a plain key. */
  lemma BoundaryKeyPlain()
    ensures "boundary" != [] && Trimmed("boundary") && ';' !in "boundary" && '=' !in "boundary"
  {
  }

  lemma BoundaryParamSplit(t: string, b: string)
    ensures t + "; boundary=" + b == t + ";" + (" " + ("boundary" + "=" + b))
  {
    assert "; boundary=" == ";" + " " + "boundary" + "=";
  }

  /** A multipart Content-Type announces exactly its boundary. */
  lemma MediaTypeAnnouncesBoundary(t: string, b: string)
    requires t != [] && ';' !in t && Trimmed(t)
    requires b != [] && ';' !in b && Trimmed(b)
    ensures ParseMediaType(t + "; boundary=" + b) == Done(map["boundary" := b])
  {
    BoundaryParamSplit(t, b);
    MediaTypeThenParams(t, " " + ("boundary" + "=" + b));
    BoundaryKeyPlain();
    LastParam("boundary", b, map[]);
  }
}
