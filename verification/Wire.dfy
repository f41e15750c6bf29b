/**
 The DNS messages of the stub upstream: the probe's query, the stub's name parser and
 its answer. `Decode` reads a message as sections 3.1 and 4.1 of RFC 1035 define it and
 is independent of the stub's own parser.
 */
module Wire {
  import opened Wrappers

  type Byte = b: int | 0 <= b < 256
  type Bytes = seq<Byte>
  type Ttl = t: int | 0 <= t < 0x1_0000_0000

  datatype WireError = TruncatedName | ShortQuery | LabelTooLong

  const HEADER_LEN := 12

  // ----- The query -----

  predicate Encodable(labels: seq<Bytes>) {
    forall i :: 0 <= i < |labels| ==> |labels[i]| < 256
  }

  function LabelWire(text: Bytes): Bytes
    requires |text| < 256
  {
    [|text|] + text
  }

  function NameWire(labels: seq<Bytes>): Bytes
    requires Encodable(labels)
  {
    if labels == [] then [0] else LabelWire(labels[0]) + NameWire(labels[1..])
  }

  const QUERY_HEADER: Bytes := [0x12, 0x34, 0x01, 0x00, 0x00, 0x01, 0x00, 0x00, 0x00, 0x00, 0x00, 0x00]
  const A_IN: Bytes := [0x00, 0x01, 0x00, 0x01]

  function EncodeQuery(labels: seq<Bytes>): Result<Bytes, WireError> {
    if !Encodable(labels) then Err(LabelTooLong) else Ok(QUERY_HEADER + NameWire(labels) + A_IN)
  }

  // ----- The stub's parser -----

  // A slice that ends at the data, as Python's slices do.
  function Slice(data: Bytes, from: nat, to: nat): Bytes {
    if from >= |data| || to <= from then [] else if to > |data| then data[from..] else data[from..to]
  }

  // A length byte with either of its two high bits set ends the name.
  predicate IsPointer(length: Byte) {
    length >= 0x40
  }

  type Name = Result<(seq<Bytes>, nat), WireError>

  function ParseName(data: Bytes, offset: nat): Name
    decreases |data| - offset
  {
    if offset >= |data| then Err(TruncatedName)
    else
      var length := data[offset];
      if length == 0 then Ok(([], offset + 1))
      else if IsPointer(length) then Ok(([], offset + 2))
      else
        match ParseName(data, offset + 1 + length)
        case Err(e) => Err(e)
        case Ok((labels, end)) => Ok(([Slice(data, offset + 1, offset + 1 + length)] + labels, end))
  }

  function Prefixed(labels: seq<Bytes>, rest: Name): Name {
    if rest.Err? then rest else Ok((labels + rest.value.0, rest.value.1))
  }

  method ParseQname(data: Bytes, start: nat) returns (r: Name)
    ensures r == ParseName(data, start)
  {
    var labels: seq<Bytes> := [];
    var offset := start;
    assert forall found: seq<Bytes> :: [] + found == found;
    while true
      invariant ParseName(data, start) == Prefixed(labels, ParseName(data, offset))
      decreases |data| - offset
    {
      if offset >= |data| { return Err(TruncatedName); }
      var length := data[offset];
      ghost var before := offset;
      offset := offset + 1;
      if length == 0 { break; }
      if IsPointer(length) {
        offset := offset + 1;
        break;
      }
      var text := Slice(data, offset, offset + length);
      ghost var rest := ParseName(data, offset + length);
      assert ParseName(data, before) == Prefixed([text], rest);
      assert rest.Ok? ==> labels + ([text] + rest.value.0) == labels + [text] + rest.value.0;
      labels := labels + [text];
      offset := offset + length;
    }
    assert labels + [] == labels;
    return Ok((labels, offset));
  }

  // ----- The stub's answer -----

  function Word(n: int): Bytes
    requires 0 <= n < 0x1_0000
  {
    [n / 0x100, n % 0x100]
  }

  function DoubleWord(n: Ttl): Bytes {
    Word(n / 0x1_0000) + Word(n % 0x1_0000)
  }

  function Answer(address: Bytes, ttl: Ttl): Bytes
    requires |address| == 4
  {
    [0xC0, 0x0C] + A_IN + DoubleWord(ttl) + Word(4) + address
  }

  function AnswerHeader(query: Bytes): Bytes
    requires |query| >= HEADER_LEN
  {
    query[..2] + [0x81, 0x80] + query[4..6] + [0, 1] + query[8..HEADER_LEN]
  }

  function Respond(query: Bytes, address: Bytes, ttl: Ttl): Result<Bytes, WireError>
    requires |address| == 4
  {
    if |query| < HEADER_LEN then Err(ShortQuery)
    else
      match ParseName(query, HEADER_LEN)
      case Err(e) => Err(e)
      case Ok((_, end)) =>
        var question := Slice(query, HEADER_LEN, end) + Slice(query, end, end + 4);
        Ok(AnswerHeader(query) + question + Answer(address, ttl))
  }

  method BuildAResponse(query: Bytes, address: Bytes, ttl: Ttl) returns (r: Result<Bytes, WireError>)
    requires |address| == 4
    ensures r == Respond(query, address, ttl)
  {
    if |query| < HEADER_LEN { return Err(ShortQuery); }
    var header := new Byte[HEADER_LEN](i requires 0 <= i < HEADER_LEN => query[i]);
    header[2] := 0x81;
    header[3] := 0x80;
    header[6] := 0;
    header[7] := 1;
    var name := ParseQname(query, HEADER_LEN);
    if name.Err? { return Err(name.error); }
    var end := name.value.1;
    var question := Slice(query, HEADER_LEN, end) + Slice(query, end, end + 4);
    var answer := [0xC0, 0x0C] + A_IN + DoubleWord(ttl);
    answer := answer + Word(|address|) + address;
    assert header[..] == AnswerHeader(query);
    return Ok(header[..] + question + answer);
  }

  // ----- Parsing what was encoded -----

  predicate Wellformed(labels: seq<Bytes>) {
    forall i :: 0 <= i < |labels| ==> 1 <= |labels[i]| <= 63
  }

  // The encoded labels stand in `data` from `at` on.
  ghost predicate StandsAt(data: Bytes, at: nat, labels: seq<Bytes>)
    decreases |labels|
  {
    if labels == [] then at < |data| && data[at] == 0
    else
      var end := at + 1 + |labels[0]|;
      end <= |data| && data[at] == |labels[0]| && data[at + 1..end] == labels[0] && StandsAt(data, end, labels[1..])
  }

  lemma LabelStands(pre: Bytes, text: Bytes, post: Bytes, data: Bytes)
    requires |text| < 256 && data == pre + LabelWire(text) + post
    ensures data[|pre|] == |text| && data[|pre| + 1..|pre| + 1 + |text|] == text
  {
  }

  lemma NameAround(pre: Bytes, labels: seq<Bytes>, post: Bytes)
    requires Encodable(labels) && labels != []
    ensures pre + NameWire(labels) + post == pre + LabelWire(labels[0]) + (NameWire(labels[1..]) + post)
    ensures pre + NameWire(labels) + post == (pre + LabelWire(labels[0])) + NameWire(labels[1..]) + post
    ensures |pre + NameWire(labels)| == |(pre + LabelWire(labels[0])) + NameWire(labels[1..])|
  {
  }

  lemma {:induction false} WireStands(pre: Bytes, labels: seq<Bytes>, post: Bytes, data: Bytes)
    requires Encodable(labels) && data == pre + NameWire(labels) + post
    ensures StandsAt(data, |pre|, labels)
    decreases |labels|
  {
    if labels != [] {
      NameAround(pre, labels, post);
      LabelStands(pre, labels[0], NameWire(labels[1..]) + post, data);
      WireStands(pre + LabelWire(labels[0]), labels[1..], post, data);
    }
  }

  function NameLength(labels: seq<Bytes>): nat {
    if labels == [] then 1 else 1 + |labels[0]| + NameLength(labels[1..])
  }

  lemma {:induction false} WireLength(labels: seq<Bytes>)
    requires Encodable(labels)
    ensures |NameWire(labels)| == NameLength(labels)
  {
    if labels != [] { WireLength(labels[1..]); }
  }

  lemma ParseOne(data: Bytes, at: nat, text: Bytes, labels: seq<Bytes>, end: nat)
    requires 1 <= |text| <= 63 && at + 1 + |text| <= |data|
    requires data[at] == |text| && data[at + 1..at + 1 + |text|] == text
    requires ParseName(data, at + 1 + |text|) == Ok((labels, end))
    ensures ParseName(data, at) == Ok(([text] + labels, end))
  {
  }

  lemma {:induction false} StandingIsParsed(data: Bytes, at: nat, labels: seq<Bytes>)
    requires Wellformed(labels) && StandsAt(data, at, labels)
    ensures ParseName(data, at) == Ok((labels, at + NameLength(labels)))
    decreases |labels|
  {
    if labels != [] {
      StandingIsParsed(data, at + 1 + |labels[0]|, labels[1..]);
      ParseOne(data, at, labels[0], labels[1..], at + NameLength(labels));
      assert [labels[0]] + labels[1..] == labels;
    }
  }

  lemma WellformedIsParsed(pre: Bytes, labels: seq<Bytes>, post: Bytes)
    requires Wellformed(labels)
    ensures ParseName(pre + NameWire(labels) + post, |pre|) == Ok((labels, |pre + NameWire(labels)|))
  {
    WireLength(labels);
    WireStands(pre, labels, post, pre + NameWire(labels) + post);
    StandingIsParsed(pre + NameWire(labels) + post, |pre|, labels);
  }

  // Fewer labels than there are when one is empty or too long.
  lemma {:induction false} BadLabelStops(data: Bytes, at: nat, labels: seq<Bytes>)
    requires StandsAt(data, at, labels) && !Wellformed(labels)
    ensures var r := ParseName(data, at); r.Ok? ==> |r.value.0| < |labels|
    decreases |labels|
  {
    if 1 <= |labels[0]| <= 63 {
      assert !Wellformed(labels[1..]) by {
        var i :| 0 <= i < |labels| && !(1 <= |labels[i]| <= 63);
        assert labels[1..][i - 1] == labels[i];
      }
      BadLabelStops(data, at + 1 + |labels[0]|, labels[1..]);
    }
  }

  // The parser reads back the encoded labels, and stops right behind them, if and only
  // if each of them has between 1 and 63 bytes.
  lemma ParsesEncodedIff(pre: Bytes, labels: seq<Bytes>, post: Bytes)
    requires Encodable(labels)
    ensures ParseName(pre + NameWire(labels) + post, |pre|) == Ok((labels, |pre + NameWire(labels)|))
            <==> Wellformed(labels)
  {
    if Wellformed(labels) {
      WellformedIsParsed(pre, labels, post);
    } else {
      WireStands(pre, labels, post, pre + NameWire(labels) + post);
      BadLabelStops(pre + NameWire(labels) + post, |pre|, labels);
    }
  }

  // ----- Where the parser goes -----

  // The offsets of the length bytes that are read from `at` on, each leading to the next.
  ghost predicate Path(data: Bytes, at: nat, offsets: seq<nat>)
    decreases |offsets|
  {
    && offsets != [] && offsets[0] == at
    && (|offsets| > 1 ==>
          at < |data| && 1 <= data[at] <= 63 && Path(data, at + 1 + data[at], offsets[1..]))
  }

  // The labels behind all but the last of the offsets.
  ghost predicate Spelled(data: Bytes, offsets: seq<nat>, labels: seq<Bytes>) {
    && |offsets| == |labels| + 1
    && forall i :: 0 <= i < |labels| ==>
         offsets[i] < |data| && labels[i] == Slice(data, offsets[i] + 1, offsets[i] + 1 + data[offsets[i]])
  }

  lemma SpelledMore(data: Bytes, at: nat, offsets: seq<nat>, labels: seq<Bytes>)
    requires Spelled(data, offsets, labels) && at < |data|
    ensures Spelled(data, [at] + offsets, [Slice(data, at + 1, at + 1 + data[at])] + labels)
  {
  }

  // How a name ends whose last length byte is at `last`.
  ghost predicate EndsAt(data: Bytes, last: nat, offsets: seq<nat>, name: Name) {
    if last >= |data| then name == Err(TruncatedName)
    else
      && (data[last] == 0 || data[last] >= 64)
      && name.Ok? && name.value.1 == last + (if data[last] == 0 then 1 else 2)
      && Spelled(data, offsets, name.value.0)
  }

  // Whatever the bytes are: the labels are those on the path up to the first length byte
  // that is zero or has a high bit set, behind which the name ends, one byte on or two.
  // Without such a byte the name is truncated.
  lemma {:induction false} ParseFollows(data: Bytes, at: nat) returns (offsets: seq<nat>)
    ensures Path(data, at, offsets) && EndsAt(data, offsets[|offsets| - 1], offsets, ParseName(data, at))
    decreases |data| - at
  {
    if at < |data| && 1 <= data[at] <= 63 {
      var rest := ParseFollows(data, at + 1 + data[at]);
      offsets := [at] + rest;
      assert offsets[1..] == rest && offsets[|offsets| - 1] == rest[|rest| - 1];
      if ParseName(data, at).Ok? {
        SpelledMore(data, at, rest, ParseName(data, at + 1 + data[at]).value.0);
      }
    } else {
      offsets := [at];
    }
  }

  lemma SliceSplits(data: Bytes, from: nat, mid: nat, to: nat)
    requires from <= mid <= to
    ensures Slice(data, from, mid) + Slice(data, mid, to) == Slice(data, from, to)
  {
  }

  // The stub refuses a query exactly when it has no whole header or its name is truncated.
  // It answers any other with the query's own bytes up to four behind the name, as far
  // as there are any, between the header and the answer.
  lemma AnsweredIff(query: Bytes, address: Bytes, ttl: Ttl) returns (offsets: seq<nat>)
    requires |address| == 4
    ensures |query| < 12 ==> Respond(query, address, ttl) == Err(ShortQuery)
    ensures |query| >= 12 ==>
              && Path(query, 12, offsets)
              && var last := offsets[|offsets| - 1];
                 Respond(query, address, ttl) ==
                 if last >= |query| then Err(TruncatedName)
                 else
                   var question := Slice(query, 12, last + if query[last] == 0 then 5 else 6);
                   Ok(AnswerHeader(query) + question + Answer(address, ttl))
  {
    offsets := ParseFollows(query, HEADER_LEN);
    var last := offsets[|offsets| - 1];
    if |query| >= 12 && last < |query| {
      var end := ParseName(query, HEADER_LEN).value.1;
      PathAscends(query, HEADER_LEN, offsets);
      SliceSplits(query, HEADER_LEN, end, end + 4);
    }
  }

  lemma {:induction false} PathAscends(data: Bytes, at: nat, offsets: seq<nat>)
    requires Path(data, at, offsets)
    ensures at <= offsets[|offsets| - 1]
    decreases |offsets|
  {
    if |offsets| > 1 { PathAscends(data, at + 1 + data[at], offsets[1..]); }
  }

  // ----- Reading a message by the standard -----

  datatype Record = Record(name: seq<Bytes>, rtype: int, rclass: int, ttl: int, rdata: Bytes)
  datatype Message = Message(id: Bytes, flags: Bytes, qname: seq<Bytes>, qtype: int, qclass: int, answer: Record)

  function U16(m: Bytes, i: nat): int
    requires i + 2 <= |m|
  {
    m[i] as int * 0x100 + m[i + 1]
  }

  // Labels up to a zero byte or a pointer; a pointer leads to before `start`, where the
  // name that holds it begins (section 4.1.4 of RFC 1035).
  function ReadName(m: Bytes, at: nat, start: nat): Option<(seq<Bytes>, nat)>
    decreases start, |m| - at
  {
    if at >= |m| then None
    else
      var n := m[at];
      if n == 0 then Some(([], at + 1))
      else if n >= 0xC0 then
        if at + 1 >= |m| then None
        else
          var target := (n as int - 0xC0) * 0x100 + m[at + 1];
          if target >= start then None
          else
            match ReadName(m, target, target)
            case None => None
            case Some((labels, _)) => Some((labels, at + 2))
      else if n >= 0x40 || at + 1 + n > |m| then None
      else
        match ReadName(m, at + 1 + n, start)
        case None => None
        case Some((labels, end)) => Some(([m[at + 1..at + 1 + n]] + labels, end))
  }

  lemma {:induction false} ReadIsWellformed(m: Bytes, at: nat, start: nat)
    ensures ReadName(m, at, start).Some? ==> Wellformed(ReadName(m, at, start).value.0)
    decreases start, |m| - at
  {
    if at < |m| && m[at] >= 0xC0 {
      if at + 1 < |m| {
        var target := (m[at] as int - 0xC0) * 0x100 + m[at + 1];
        if target < start { ReadIsWellformed(m, target, target); }
      }
    } else if at < |m| && m[at] > 0 {
      ReadIsWellformed(m, at + 1 + m[at], start);
    }
  }

  // Section 2.3.4 of RFC 1035: a name has at most 255 octets, length bytes included.
  const MAX_NAME := 255

  function ReadDomain(m: Bytes, at: nat): Option<(seq<Bytes>, nat)> {
    match ReadName(m, at, at)
    case None => None
    case Some((labels, end)) => if NameLength(labels) > MAX_NAME then None else Some((labels, end))
  }

  // A message of one question and one answer, with nothing missing and nothing left over.
  function Decode(m: Bytes): Option<Message> {
    if |m| < HEADER_LEN || U16(m, 4) != 1 || U16(m, 6) != 1 || U16(m, 8) != 0 || U16(m, 10) != 0 then None
    else
      match ReadDomain(m, HEADER_LEN)
      case None => None
      case Some((qname, q)) =>
        if q + 4 > |m| then None
        else
          match ReadDomain(m, q + 4)
          case None => None
          case Some((name, a)) =>
            if a + 10 > |m| || a + 10 + U16(m, a + 8) != |m| then None
            else
              var ttl := U16(m, a + 4) * 0x1_0000 + U16(m, a + 6);
              var record := Record(name, U16(m, a), U16(m, a + 2), ttl, m[a + 10..]);
              Some(Message(m[..2], m[2..4], qname, U16(m, q), U16(m, q + 2), record))
  }

  lemma ReadOne(m: Bytes, at: nat, start: nat, text: Bytes, labels: seq<Bytes>, end: nat)
    requires 1 <= |text| <= 63 && at + 1 + |text| <= |m|
    requires m[at] == |text| && m[at + 1..at + 1 + |text|] == text
    requires ReadName(m, at + 1 + |text|, start) == Some((labels, end))
    ensures ReadName(m, at, start) == Some(([text] + labels, end))
  {
  }

  lemma {:induction false} StandingIsRead(m: Bytes, at: nat, labels: seq<Bytes>, start: nat)
    requires Wellformed(labels) && StandsAt(m, at, labels)
    ensures ReadName(m, at, start) == Some((labels, at + NameLength(labels)))
    decreases |labels|
  {
    if labels != [] {
      StandingIsRead(m, at + 1 + |labels[0]|, labels[1..], start);
      ReadOne(m, at, start, labels[0], labels[1..], at + NameLength(labels));
      assert [labels[0]] + labels[1..] == labels;
    }
  }

  lemma SameHeader(header: Bytes, rest: Bytes)
    requires |header| == HEADER_LEN
    ensures AnswerHeader(header + rest) == AnswerHeader(header)
  {
    var query := header + rest;
    assert query[..2] == header[..2] && query[4..6] == header[4..6] && query[8..HEADER_LEN] == header[8..HEADER_LEN];
  }

  lemma MiddleSlice(a: Bytes, b: Bytes, c: Bytes)
    ensures Slice(a + b + c, |a|, |a| + |b|) == b
  {
    if b != [] { assert (a + b + c)[|a|..|a| + |b|] == b; }
  }

  lemma QueryParts(header: Bytes, name: Bytes, kind: Bytes, extra: Bytes, query: Bytes)
    requires |header| == HEADER_LEN && |kind| == 4 && query == header + name + kind + extra
    ensures query == header + name + (kind + extra) && AnswerHeader(query) == AnswerHeader(header)
    ensures Slice(query, HEADER_LEN, |header + name|) == name
    ensures Slice(query, |header + name|, |header + name| + 4) == kind
  {
    assert query == header + name + (kind + extra);
    MiddleSlice(header, name, kind + extra);
    assert query == (header + name) + kind + extra;
    MiddleSlice(header + name, kind, extra);
    assert query == header + (name + kind + extra);
    SameHeader(header, name + kind + extra);
  }

  // The stub copies the question of a well-formed query, whatever follows it.
  lemma RespondIs(header: Bytes, labels: seq<Bytes>, kind: Bytes, extra: Bytes, address: Bytes, ttl: Ttl)
    requires |header| == HEADER_LEN && Wellformed(labels) && |kind| == 4 && |address| == 4
    ensures Respond(header + NameWire(labels) + kind + extra, address, ttl)
            == Ok(AnswerHeader(header) + NameWire(labels) + kind + Answer(address, ttl))
  {
    var name := NameWire(labels);
    var query := header + name + kind + extra;
    QueryParts(header, name, kind, extra, query);
    WellformedIsParsed(header, labels, kind + extra);
    assert AnswerHeader(header) + (name + kind) == AnswerHeader(header) + name + kind;
  }

  // The answer's pointer leads back to the question's name.
  lemma PointerResolves(head: Bytes, labels: seq<Bytes>, kind: Bytes, tail: Bytes)
    requires |head| == HEADER_LEN && Wellformed(labels) && |kind| == 4
    ensures var m, q := head + NameWire(labels) + kind + ([0xC0, 0x0C] + tail), |head + NameWire(labels)|;
            && ReadName(m, HEADER_LEN, HEADER_LEN) == Some((labels, q))
            && ReadName(m, q + 4, q + 4) == Some((labels, q + 6))
  {
    var m, q := head + NameWire(labels) + kind + ([0xC0, 0x0C] + tail), |head + NameWire(labels)|;
    assert m == head + NameWire(labels) + (kind + ([0xC0, 0x0C] + tail));
    WireLength(labels);
    WireStands(head, labels, kind + ([0xC0, 0x0C] + tail), m);
    StandingIsRead(m, HEADER_LEN, labels, HEADER_LEN);
    assert m[q + 4] == 0xC0 && m[q + 5] == 0x0C;
  }

  lemma LayoutParts(head: Bytes, name: Bytes, kind: Bytes, tail: Bytes, m: Bytes)
    requires m == head + name + kind + ([0xC0, 0x0C] + tail) && |kind| == 4
    ensures var q := |head + name|; q + 6 <= |m| && m[q..q + 4] == kind && m[q + 6..] == tail
  {
  }

  lemma DecodeFields(m: Bytes, q: nat, labels: seq<Bytes>)
    requires |m| >= HEADER_LEN && U16(m, 4) == 1 && U16(m, 6) == 1 && U16(m, 8) == 0 && U16(m, 10) == 0
    requires ReadName(m, HEADER_LEN, HEADER_LEN) == Some((labels, q)) && q + 20 == |m|
    requires ReadName(m, q + 4, q + 4) == Some((labels, q + 6)) && U16(m, q + 14) == 4
    ensures Decode(m) ==
            if NameLength(labels) > MAX_NAME then None
            else Some(Message(m[..2], m[2..4], labels, U16(m, q), U16(m, q + 2),
                              Record(labels, U16(m, q + 6), U16(m, q + 8),
                                     U16(m, q + 10) * 0x1_0000 + U16(m, q + 12), m[q + 16..])))
  {
  }

  // A message laid out as the stub lays it out.
  lemma LayoutDecodes(head: Bytes, labels: seq<Bytes>, kind: Bytes, address: Bytes, ttl: Ttl, m: Bytes)
    requires |head| == HEADER_LEN && Wellformed(labels) && |kind| == 4 && |address| == 4
    requires m == head + NameWire(labels) + kind + Answer(address, ttl)
    requires |m| >= HEADER_LEN && U16(m, 4) == 1 && U16(m, 6) == 1 && U16(m, 8) == 0 && U16(m, 10) == 0
    ensures Decode(m) == if NameLength(labels) > MAX_NAME then None
                         else Some(Message(m[..2], m[2..4], labels, U16(kind, 0), U16(kind, 2),
                                           Record(labels, 1, 1, ttl, address)))
  {
    var q := |head + NameWire(labels)|;
    var tail := AfterPointer(address, ttl);
    AnswerIs(address, ttl);
    PointerResolves(head, labels, kind, tail);
    LayoutParts(head, NameWire(labels), kind, tail, m);
    PartsDecode(m, q, labels, kind, address, ttl);
  }

  lemma PartsDecode(m: Bytes, q: nat, labels: seq<Bytes>, kind: Bytes, address: Bytes, ttl: Ttl)
    requires |m| >= HEADER_LEN && U16(m, 4) == 1 && U16(m, 6) == 1 && U16(m, 8) == 0 && U16(m, 10) == 0
    requires |kind| == 4 && |address| == 4 && q + 6 <= |m|
    requires m[q..q + 4] == kind && m[q + 6..] == AfterPointer(address, ttl)
    requires ReadName(m, HEADER_LEN, HEADER_LEN) == Some((labels, q))
    requires ReadName(m, q + 4, q + 4) == Some((labels, q + 6))
    ensures Decode(m) == if NameLength(labels) > MAX_NAME then None
                         else Some(Message(m[..2], m[2..4], labels, U16(kind, 0), U16(kind, 2),
                                           Record(labels, 1, 1, ttl, address)))
  {
    QuestionFields(m, q, kind);
    TailFields(m, q + 6, address, ttl);
    DecodeFields(m, q, labels);
  }

  function AfterPointer(address: Bytes, ttl: Ttl): Bytes {
    A_IN + DoubleWord(ttl) + Word(4) + address
  }

  lemma AnswerIs(address: Bytes, ttl: Ttl)
    requires |address| == 4
    ensures Answer(address, ttl) == [0xC0, 0x0C] + AfterPointer(address, ttl)
  {
  }

  // For every query of one well-formed question, the answer decodes by the standard to
  // the query's ID and question and one A record for the queried name, if and only if
  // the query's header counts one question and no authority or additional records, and
  // the name has at most 255 octets.
  lemma AnswerDecodes(header: Bytes, labels: seq<Bytes>, kind: Bytes, extra: Bytes, address: Bytes, ttl: Ttl)
    requires |header| == HEADER_LEN && Wellformed(labels) && |kind| == 4 && |address| == 4
    ensures var response := Respond(header + NameWire(labels) + kind + extra, address, ttl);
            && response.Ok?
            && Decode(response.value) ==
               if U16(header, 4) == 1 && U16(header, 8) == 0 && U16(header, 10) == 0
                  && NameLength(labels) <= MAX_NAME then
                 Some(Message(header[..2], [0x81, 0x80], labels, U16(kind, 0), U16(kind, 2),
                              Record(labels, 1, 1, ttl, address)))
               else None
  {
    RespondIs(header, labels, kind, extra, address, ttl);
    var head := AnswerHeader(header);
    var m := head + NameWire(labels) + kind + Answer(address, ttl);
    assert head <= m;
    HeaderFields(header, m);
    if U16(header, 4) == 1 && U16(header, 8) == 0 && U16(header, 10) == 0 {
      LayoutDecodes(head, labels, kind, address, ttl, m);
    }
  }

  lemma QuestionFields(m: Bytes, q: nat, kind: Bytes)
    requires |kind| == 4 && q + 4 <= |m| && m[q..q + 4] == kind
    ensures U16(m, q) == U16(kind, 0) && U16(m, q + 2) == U16(kind, 2)
  {
    assert m[q] == kind[0] && m[q + 1] == kind[1] && m[q + 2] == kind[2] && m[q + 3] == kind[3];
  }

  lemma HeaderFields(header: Bytes, m: Bytes)
    requires |header| == HEADER_LEN && AnswerHeader(header) <= m
    ensures m[..2] == header[..2] && m[2..4] == [0x81, 0x80]
    ensures U16(m, 4) == U16(header, 4) && U16(m, 6) == 1
    ensures U16(m, 8) == U16(header, 8) && U16(m, 10) == U16(header, 10)
  {
    var head := AnswerHeader(header);
    assert forall i :: 0 <= i < HEADER_LEN ==> m[i] == head[i];
  }

  lemma TailFields(m: Bytes, a: nat, address: Bytes, ttl: Ttl)
    requires |address| == 4 && a <= |m| && m[a..] == AfterPointer(address, ttl)
    ensures |m| == a + 14 && m[a + 10..] == address
    ensures U16(m, a) == 1 && U16(m, a + 2) == 1 && U16(m, a + 8) == 4
    ensures U16(m, a + 4) * 0x1_0000 + U16(m, a + 6) == ttl
  {
    var tail := m[a..];
    assert forall i :: 0 <= i < 14 ==> m[a + i] == tail[i];
    assert tail[10..] == address;
  }

  lemma ProbeFields()
    ensures U16(QUERY_HEADER, 4) == 1 && U16(QUERY_HEADER, 8) == 0 && U16(QUERY_HEADER, 10) == 0
    ensures U16(A_IN, 0) == 1 && U16(A_IN, 2) == 1 && QUERY_HEADER[..2] == [0x12, 0x34]
  {
  }

  lemma DecodedIsWellformed(m: Bytes)
    ensures Decode(m).Some? ==> Wellformed(Decode(m).value.qname)
  {
    ReadIsWellformed(m, HEADER_LEN, HEADER_LEN);
  }

  datatype Question = Question(id: Bytes, flags: Bytes, qname: seq<Bytes>, qtype: int, qclass: int)

  // A message of one question and nothing else.
  function DecodeQuestion(m: Bytes): Option<Question> {
    if |m| < HEADER_LEN || U16(m, 4) != 1 || U16(m, 6) != 0 || U16(m, 8) != 0 || U16(m, 10) != 0 then None
    else
      match ReadDomain(m, HEADER_LEN)
      case None => None
      case Some((qname, q)) =>
        if q + 4 != |m| then None else Some(Question(m[..2], m[2..4], qname, U16(m, q), U16(m, q + 2)))
  }

  // The probe's query decodes by the standard to a recursive question for the A record
  // of the name, if and only if it is a name.
  lemma QueryDecodesIff(labels: seq<Bytes>, query: Bytes)
    requires EncodeQuery(labels) == Ok(query)
    ensures DecodeQuestion(query) == Some(Question([0x12, 0x34], [0x01, 0x00], labels, 1, 1))
            <==> Wellformed(labels) && NameLength(labels) <= MAX_NAME
  {
    QueryFields(labels, query);
    if Wellformed(labels) {
      WireLength(labels);
      WireStands(QUERY_HEADER, labels, A_IN, query);
      StandingIsRead(query, HEADER_LEN, labels, HEADER_LEN);
    }
    ReadIsWellformed(query, HEADER_LEN, HEADER_LEN);
  }

  lemma QueryFields(labels: seq<Bytes>, query: Bytes)
    requires EncodeQuery(labels) == Ok(query)
    ensures var q := 12 + |NameWire(labels)|;
            |query| == q + 4 && U16(query, q) == 1 && U16(query, q + 2) == 1
    ensures query[..2] == [0x12, 0x34] && query[2..4] == [0x01, 0x00]
    ensures U16(query, 4) == 1 && U16(query, 6) == 0 && U16(query, 8) == 0 && U16(query, 10) == 0
  {
    var q := |QUERY_HEADER + NameWire(labels)|;
    assert query[q..q + 4] == A_IN;
    QuestionFields(query, q, A_IN);
    assert forall i :: 0 <= i < HEADER_LEN ==> query[i] == QUERY_HEADER[i];
  }

  // Whatever the probe can encode is answered by the stub, to the name asked for, if and
  // only if each label has between 1 and 63 bytes and the name at most 255 octets.
  lemma ProbeIsAnsweredIff(labels: seq<Bytes>, address: Bytes, ttl: Ttl, query: Bytes)
    requires EncodeQuery(labels) == Ok(query) && |address| == 4
    ensures (var response := Respond(query, address, ttl);
             && response.Ok?
             && Decode(response.value) ==
                Some(Message([0x12, 0x34], [0x81, 0x80], labels, 1, 1, Record(labels, 1, 1, ttl, address))))
            <==> Wellformed(labels) && NameLength(labels) <= MAX_NAME
  {
    if Wellformed(labels) {
      ProbeFields();
      assert query == QUERY_HEADER + NameWire(labels) + A_IN + [];
      AnswerDecodes(QUERY_HEADER, labels, A_IN, [], address, ttl);
    } else if Respond(query, address, ttl).Ok? {
      DecodedIsWellformed(Respond(query, address, ttl).value);
    }
  }
}
