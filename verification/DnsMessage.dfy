// The byte-level question parser of main/dns_forward.c and the encoding it undoes
// (RFC 1035, sections 3.1, 4.1.1 and 4.1.2).
module DnsMessage {
  import opened ByteSeqs
  import opened Options

  const HEADER := 12
  const QUESTION_MAX := 259
  const MESSAGE_MAX := 512

  // A 16-bit transaction ID or count.
  type Id = n: int | 0 <= n < 0x1_0000

  function Word(hi: byte, lo: byte): Id {
    (hi as nat) * 256 + lo as nat
  }

  function Hi(w: Id): byte {
    (w / 256) as byte
  }

  function Lo(w: Id): byte {
    (w % 256) as byte
  }

  function SetId(msg: Bytes, id: Id): Bytes
    requires |msg| >= 2
  {
    [Hi(id), Lo(id)] + msg[2..]
  }

  // dns_header_valid
  predicate HeaderValid(msg: Bytes, expectResponse: bool) {
    |msg| >= HEADER && (msg[2] / 128 != 0) == expectResponse
  }

  // ------------------------------------------------- the encoding (reference)

  // A domain name: labels of 1 to 63 bytes.
  ghost predicate LabelsOk(labels: seq<Bytes>) {
    forall i :: 0 <= i < |labels| ==> 1 <= |labels[i]| <= 63
  }

  function EncodeName(labels: seq<Bytes>): Bytes
    requires forall i :: 0 <= i < |labels| ==> 1 <= |labels[i]| <= 63
  {
    if labels == [] then [0]
    else [|labels[0]| as byte] + labels[0] + EncodeName(labels[1..])
  }

  function EncodeQuestion(labels: seq<Bytes>, typeAndClass: Bytes): Bytes
    requires forall i :: 0 <= i < |labels| ==> 1 <= |labels[i]| <= 63
  {
    EncodeName(labels) + typeAndClass
  }

  // ------------------------------------------------- the parser

  // Position just after the root label of the name that starts at pos.
  function NameEnd(msg: Bytes, pos: nat): (r: Option<nat>)
    ensures r.Some? ==> pos < r.value <= |msg|
    decreases if pos <= |msg| then |msg| - pos else 0
  {
    if pos >= |msg| then None
    else if msg[pos] == 0 then Some(pos + 1)
    else if msg[pos] / 64 != 0 || msg[pos] > 63 then None
    else if pos + 1 + msg[pos] as nat > |msg| then None
    else NameEnd(msg, pos + 1 + msg[pos] as nat)
  }

  // What extract_question yields for a message.
  function Question(msg: Bytes): Option<Bytes> {
    if |msg| < HEADER || Word(msg[4], msg[5]) < 1 then None
    else match NameEnd(msg, HEADER)
      case None => None
      case Some(end) =>
        if end + 4 > |msg| || end + 4 - HEADER > QUESTION_MAX then None else Some(msg[HEADER..end + 4])
  }

  // extract_question, over the first `len` bytes of the receive buffer.
  method ExtractQuestion(buf: array<byte>, len: nat) returns (q: Option<Bytes>)
    requires len <= buf.Length
    ensures q == Question(buf[..len])
  {
    ghost var msg := buf[..len];
    if len < HEADER {
      return None;
    }
    if Word(buf[4], buf[5]) < 1 {
      return None;
    }
    var pos := HEADER;
    while true
      invariant HEADER <= pos <= len
      invariant NameEnd(msg, HEADER) == NameEnd(msg, pos)
      decreases len - pos
    {
      if pos >= len {
        return None;
      }
      var labelLen := buf[pos];
      if labelLen == 0 {
        pos := pos + 1;
        break;
      }
      if labelLen / 64 != 0 || labelLen > 63 {
        return None;
      }
      pos := pos + 1 + labelLen as nat;
      if pos > len {
        return None;
      }
    }
    if pos + 4 > len {
      return None;
    }
    pos := pos + 4;
    var qlen := pos - HEADER;
    if qlen > QUESTION_MAX {
      return None;
    }
    assert buf[HEADER..pos] == msg[HEADER..pos];
    return Some(buf[HEADER..pos]);
  }

  // ------------------------------------------------- they undo each other

  // Parsing an encoded name ends exactly where the encoding does.
  lemma {:induction false} NameEndOfEncoding(pre: Bytes, labels: seq<Bytes>, post: Bytes)
    requires LabelsOk(labels)
    ensures NameEnd(pre + EncodeName(labels) + post, |pre|) == Some(|pre| + |EncodeName(labels)|)
    decreases |labels|
  {
    var msg := pre + EncodeName(labels) + post;
    if labels != [] {
      var head := [|labels[0]| as byte] + labels[0];
      NameEndOfEncoding(pre + head, labels[1..], post);
      assert pre + head + EncodeName(labels[1..]) + post == msg;
      assert msg[|pre|] == |labels[0]| as byte;
    }
  }

  // Where a name ends, there is a list of labels that encodes to those bytes.
  lemma {:induction false} NameEndDecodes(msg: Bytes, pos: nat) returns (labels: seq<Bytes>)
    requires NameEnd(msg, pos).Some?
    ensures LabelsOk(labels) && EncodeName(labels) == msg[pos..NameEnd(msg, pos).value]
    decreases |msg| - pos
  {
    if msg[pos] == 0 {
      labels := [];
    } else {
      var next := pos + 1 + msg[pos] as nat;
      var rest := NameEndDecodes(msg, next);
      labels := [msg[pos + 1..next]] + rest;
      assert labels[1..] == rest;
      assert LabelsOk(labels);
      var end := NameEnd(msg, pos).value;
      assert msg[pos..end] == [msg[pos]] + msg[pos + 1..next] + msg[next..end];
    }
  }

  // For every label list with name length at most 255, any header with QDCOUNT >= 1
  // and any trailing bytes, extraction returns exactly the encoded question.
  lemma ExtractOfEncoding(header: Bytes, labels: seq<Bytes>, typeAndClass: Bytes, post: Bytes)
    requires LabelsOk(labels) && |EncodeName(labels)| <= 255 && |typeAndClass| == 4
    requires |header| == HEADER && Word(header[4], header[5]) >= 1
    ensures Question(header + EncodeQuestion(labels, typeAndClass) + post) == Some(EncodeQuestion(labels, typeAndClass))
  {
    var msg := header + EncodeQuestion(labels, typeAndClass) + post;
    NameEndOfEncoding(header, labels, typeAndClass + post);
    assert msg == header + EncodeName(labels) + (typeAndClass + post);
  }

  // q is the question section at the front of msg's body, and it fits.
  ghost predicate IsQuestionOf(msg: Bytes, q: Bytes) {
    && |msg| >= HEADER && Word(msg[4], msg[5]) >= 1
    && HEADER + |q| <= |msg| && msg[HEADER..HEADER + |q|] == q
    && exists labels, typeAndClass :: EncodesTo(labels, typeAndClass, q)
  }

  ghost predicate EncodesTo(labels: seq<Bytes>, typeAndClass: Bytes, q: Bytes) {
    LabelsOk(labels) && |EncodeName(labels)| <= 255 && |typeAndClass| == 4 && q == EncodeQuestion(labels, typeAndClass)
  }

  // Extraction succeeds with q exactly when q is an encoded question of at most
  // 255 + 4 bytes that stands at offset 12 of the message.
  lemma ExtractExactly(msg: Bytes, q: Bytes)
    ensures Question(msg) == Some(q) <==> IsQuestionOf(msg, q)
  {
    if Question(msg) == Some(q) {
      var end := NameEnd(msg, HEADER).value;
      var labels := NameEndDecodes(msg, HEADER);
      assert q == EncodeQuestion(labels, msg[end..end + 4]);
      assert EncodesTo(labels, msg[end..end + 4], q);
    }
    if IsQuestionOf(msg, q) {
      var labels, typeAndClass :| EncodesTo(labels, typeAndClass, q);
      ExtractOfEncoding(msg[..HEADER], labels, typeAndClass, msg[HEADER + |q|..]);
      assert msg == msg[..HEADER] + q + msg[HEADER + |q|..];
    }
  }

  // Rewriting the transaction ID leaves header test and question alone.
  lemma IdDoesNotMatter(msg: Bytes, id: Id)
    requires |msg| >= HEADER
    ensures Question(SetId(msg, id)) == Question(msg)
    ensures HeaderValid(SetId(msg, id), true) == HeaderValid(msg, true)
    ensures Word(SetId(msg, id)[0], SetId(msg, id)[1]) == id
    ensures SetId(SetId(msg, id), Word(msg[0], msg[1])) == msg
  {
    var other := SetId(msg, id);
    assert other[2..] == msg[2..];
    NameEndSame(msg, other, HEADER);
    if NameEnd(msg, HEADER).Some? && NameEnd(msg, HEADER).value + 4 <= |msg| {
      var end := NameEnd(msg, HEADER).value + 4;
      assert other[HEADER..end] == other[2..][HEADER - 2..end - 2] == msg[HEADER..end];
    }
    assert SetId(other, Word(msg[0], msg[1])) == [msg[0], msg[1]] + msg[2..];
  }

  lemma {:induction false} NameEndSame(a: Bytes, b: Bytes, pos: nat)
    requires pos >= 2 && |a| == |b| && (forall i :: 2 <= i < |a| ==> a[i] == b[i])
    ensures NameEnd(a, pos) == NameEnd(b, pos)
    decreases if pos <= |a| then |a| - pos else 0
  {
    if pos < |a| && a[pos] != 0 && a[pos] <= 63 {
      NameEndSame(a, b, pos + 1 + a[pos] as nat);
    }
  }
}
