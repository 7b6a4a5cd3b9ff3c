/** The helper that turns a validated DNS answer into a short-lived proof: the recogniser of query names, the decoding
of a TXT record, its rendering as JSON, and the lifetime of the proof. Bytes of C strings are never zero. */
module DnsProof {
  import opened Wrappers
  import opened Sequences

  type Byte = x: int | 0 <= x < 256
  type Bytes = seq<Byte>

  const DOT: Byte := 0x2e
  const HYPHEN: Byte := 0x2d
  const QUOTE: Byte := 0x22
  const BACKSLASH: Byte := 0x5c

  // ---------------------------------------------------------------------------
  // Query names

  predicate IsNameByte(c: Byte) {
    0x61 <= c <= 0x7a || 0x30 <= c <= 0x39 || c == HYPHEN || c == 0x5f
  }

  predicate IsLabel(l: Bytes) {
    && 1 <= |l| <= 63
    && (forall i :: 0 <= i < |l| ==> IsNameByte(l[i]))
    && l[0] != HYPHEN && l[|l| - 1] != HYPHEN
  }

  predicate AreLabels(labels: seq<Bytes>) {
    forall i :: 0 <= i < |labels| ==> IsLabel(labels[i])
  }

  function Dotted(labels: seq<Bytes>): Bytes {
    if labels == [] then [] else Dotted(labels[..|labels| - 1]) + labels[|labels| - 1] + [DOT]
  }

  predicate Consists(name: Bytes, labels: seq<Bytes>) {
    |labels| >= 2 && AreLabels(labels) && name == Dotted(labels)
  }

  /** An absolute name in presentation form: at most 254 bytes, two or more labels each ended by a dot. */
  ghost predicate IsQueryName(name: Bytes) {
    |name| <= 254 && exists labels: seq<Bytes> :: Consists(name, labels)
  }

  /** The labels ended by a dot so far, and what follows the last dot. */
  function Split(s: Bytes): (seq<Bytes>, Bytes) {
    if s == [] then ([], [])
    else
      var (done, partial) := Split(s[..|s| - 1]);
      if s[|s| - 1] == DOT then (done + [partial], []) else (done, partial + [s[|s| - 1]])
  }

  lemma {:induction false} SplitJoins(s: Bytes)
    ensures Dotted(Split(s).0) + Split(s).1 == s
  {
    if s == [] {
    } else {
      SplitJoins(s[..|s| - 1]);
      var (done, partial) := Split(s[..|s| - 1]);
      assert (done + [partial])[..|done|] == done;
      assert s == s[..|s| - 1] + [s[|s| - 1]];
    }
  }

  predicate NoDot(l: Bytes) {
    forall i :: 0 <= i < |l| ==> l[i] != DOT
  }

  lemma {:induction false} SplitTail(s: Bytes, tail: Bytes)
    requires NoDot(tail)
    ensures Split(s + tail) == (Split(s).0, Split(s).1 + tail)
    decreases |tail|
  {
    if tail == [] {
      assert s + tail == s && Split(s).1 + tail == Split(s).1;
    } else {
      var last := |tail| - 1;
      SplitTail(s, tail[..last]);
      assert (s + tail)[..|s + tail| - 1] == s + tail[..last];
      assert Split(s).1 + tail == (Split(s).1 + tail[..last]) + [tail[last]];
    }
  }

  lemma SplitDot(s: Bytes)
    ensures Split(s + [DOT]) == (Split(s).0 + [Split(s).1], [])
  {
    FrontOfSnoc(s, DOT);
  }

  lemma DottedLast(labels: seq<Bytes>)
    requires labels != []
    ensures Dotted(labels) == (Dotted(labels[..|labels| - 1]) + labels[|labels| - 1]) + [DOT]
  {
  }

  lemma LabelHasNoDot(l: Bytes)
    requires IsLabel(l)
    ensures NoDot(l)
  {
  }

  lemma {:induction false} SplitDotted(labels: seq<Bytes>)
    requires AreLabels(labels)
    ensures Split(Dotted(labels)) == (labels, [])
  {
    if labels == [] {
    } else {
      var rest, l := labels[..|labels| - 1], labels[|labels| - 1];
      SplitDotted(rest);
      LabelHasNoDot(l);
      SplitTail(Dotted(rest), l);
      AppendNothing(l);
      SplitDot(Dotted(rest) + l);
      DottedLast(labels);
      FrontAndLast(labels);
    }
  }

  /** A name has one division into labels, which a scan finds. */
  lemma QueryNameIffSplits(name: Bytes)
    ensures IsQueryName(name)
            <==> |name| <= 254 && Split(name).1 == [] && |Split(name).0| >= 2 && AreLabels(Split(name).0)
  {
    SplitJoins(name);
    var (done, partial) := Split(name);
    if IsQueryName(name) {
      var labels: seq<Bytes> :| Consists(name, labels);
      SplitDotted(labels);
    } else if partial == [] && |done| >= 2 && AreLabels(done) {
      assert Dotted(done) + [] == Dotted(done);
      assert Consists(name, done);
    }
  }

  /** What is after the last dot may still become a label. */
  predicate MayBecomeLabel(l: Bytes) {
    (forall i :: 0 <= i < |l| ==> IsNameByte(l[i])) && (l != [] ==> l[0] != HYPHEN)
  }

  predicate WellFormedSoFar(s: Bytes) {
    AreLabels(Split(s).0) && MayBecomeLabel(Split(s).1)
  }

  /** A malformed beginning is never repaired. */
  lemma {:induction false} PrefixesAreWellFormed(s: Bytes, i: nat)
    requires i <= |s| && WellFormedSoFar(s)
    ensures WellFormedSoFar(s[..i])
  {
    if i < |s| {
      var front := s[..|s| - 1];
      var (done, partial) := Split(front);
      if s[|s| - 1] == DOT {
        assert Split(s).0[|done|] == partial;
        assert forall k :: 0 <= k < |done| ==> Split(s).0[k] == done[k];
      } else {
        assert forall k :: 0 <= k < |partial| ==> Split(s).1[k] == partial[k];
      }
      PrefixesAreWellFormed(front, i);
      assert front[..i] == s[..i];
    } else {
      assert s[..i] == s;
    }
  }

  lemma RejectsPrefix(name: Bytes, i: nat)
    requires i <= |name| && !WellFormedSoFar(name[..i])
    ensures !IsQueryName(name)
  {
    QueryNameIffSplits(name);
    if WellFormedSoFar(name) {
      PrefixesAreWellFormed(name, i);
    }
  }

  lemma SplitStep(s: Bytes, i: nat)
    requires i < |s|
    ensures Split(s[..i + 1]) == var (done, partial) := Split(s[..i]);
                                 if s[i] == DOT then (done + [partial], []) else (done, partial + [s[i]])
  {
    assert s[..i + 1][..i] == s[..i];
  }

  lemma EndsInDot(name: Bytes)
    requires IsQueryName(name)
    ensures |name| >= 3 && name[|name| - 1] == DOT
  {
    var labels: seq<Bytes> :| Consists(name, labels);
    assert IsLabel(labels[|labels| - 1]);
    assert Dotted(labels[..|labels| - 1]) != [];
  }

  /** One pass over the bytes accepts exactly the query names. */
  method ValidQname(name: Bytes) returns (valid: bool)
    ensures valid <==> IsQueryName(name)
  {
    var labelLength, labels, previousHyphen := 0, 0, false;
    if |name| < 3 || |name| > 254 || name[|name| - 1] != DOT {
      if IsQueryName(name) {
        EndsInDot(name);
      }
      return false;
    }
    for i := 0 to |name|
      invariant WellFormedSoFar(name[..i])
      invariant labels == |Split(name[..i]).0| && labelLength == |Split(name[..i]).1|
      invariant previousHyphen <==> labelLength > 0 && Split(name[..i]).1[labelLength - 1] == HYPHEN
    {
      var c := name[i];
      ghost var (done, partial) := Split(name[..i]);
      SplitStep(name, i);
      if c == DOT {
        assert (done + [partial])[labels] == partial;
        if labelLength == 0 || labelLength > 63 || previousHyphen {
          assert !IsLabel(partial);
          RejectsPrefix(name, i + 1);
          return false;
        }
        labels, labelLength, previousHyphen := labels + 1, 0, false;
      } else {
        assert (partial + [c])[labelLength] == c;
        if !IsNameByte(c) || (labelLength == 0 && c == HYPHEN) {
          RejectsPrefix(name, i + 1);
          return false;
        }
        previousHyphen := c == HYPHEN;
        labelLength := labelLength + 1;
      }
    }
    assert name[..|name|] == name;
    QueryNameIffSplits(name);
    return labels >= 2 && labelLength == 0;
  }

  // ---------------------------------------------------------------------------
  // TXT record data

  predicate AreChunks(chunks: seq<Bytes>) {
    forall i :: 0 <= i < |chunks| ==> |chunks[i]| < 256
  }

  /** The character-strings of section 3.3.14 of RFC 1035: a length byte, then that many bytes. */
  function Wire(chunks: seq<Bytes>): Bytes
    requires AreChunks(chunks)
  {
    if chunks == [] then [] else [|chunks[0]|] + chunks[0] + Wire(chunks[1..])
  }

  function Concat(chunks: seq<Bytes>): Bytes {
    if chunks == [] then [] else chunks[0] + Concat(chunks[1..])
  }

  function Chunks(wire: Bytes): Option<seq<Bytes>> {
    if wire == [] then Some([])
    else if 1 + wire[0] > |wire| then None
    else
      match Chunks(wire[1 + wire[0]..])
      case None => None
      case Some(rest) => Some([wire[1..1 + wire[0]]] + rest)
  }

  lemma WireStarts(chunk: Bytes, rest: Bytes)
    requires |chunk| < 256
    ensures var wire := [|chunk|] + chunk + rest;
            wire[0] == |chunk| && wire[1..1 + |chunk|] == chunk && wire[1 + |chunk|..] == rest
  {
  }

  lemma WireSplits(wire: Bytes, n: nat)
    requires wire != [] && n == wire[0] && 1 + n <= |wire|
    ensures wire == [n] + wire[1..1 + n] + wire[1 + n..]
  {
  }

  lemma {:induction false} WireIsDivided(chunks: seq<Bytes>)
    requires AreChunks(chunks)
    ensures Chunks(Wire(chunks)) == Some(chunks)
  {
    if chunks == [] {
    } else {
      WireIsDivided(chunks[1..]);
      WireStarts(chunks[0], Wire(chunks[1..]));
      HeadAndTail(chunks);
    }
  }

  lemma ChunksStep(chunk: Bytes, rest: seq<Bytes>)
    requires |chunk| < 256 && AreChunks(rest)
    ensures AreChunks([chunk] + rest) && Wire([chunk] + rest) == [|chunk|] + chunk + Wire(rest)
  {
    assert ([chunk] + rest)[1..] == rest;
  }

  lemma {:induction false} DivisionIsWire(wire: Bytes)
    requires Chunks(wire).Some?
    ensures AreChunks(Chunks(wire).value) && Wire(Chunks(wire).value) == wire
  {
    if wire == [] {
    } else {
      var n: nat := wire[0];
      var chunk, rest := wire[1..1 + n], wire[1 + n..];
      DivisionIsWire(rest);
      WireSplits(wire, n);
      ChunksStep(chunk, Chunks(rest).value);
      assert Chunks(wire).value == [chunk] + Chunks(rest).value;
    }
  }

  /** Bytes divide into character-strings in at most one way. */
  lemma ChunksIffWire(wire: Bytes, chunks: seq<Bytes>)
    ensures Chunks(wire) == Some(chunks) <==> AreChunks(chunks) && wire == Wire(chunks)
  {
    if Chunks(wire).Some? {
      DivisionIsWire(wire);
    }
    if AreChunks(chunks) {
      WireIsDivided(chunks);
    }
  }

  predicate IsPrintable(c: Byte) {
    0x20 <= c <= 0x7e
  }

  predicate AllPrintable(text: Bytes) {
    forall i :: 0 <= i < |text| ==> IsPrintable(text[i])
  }

  /** The text of a TXT record, when it fits a buffer with room for a terminator. */
  function TxtValue(wire: Bytes, capacity: nat): Option<Bytes> {
    match Chunks(wire)
    case None => None
    case Some(chunks) =>
      if AllPrintable(Concat(chunks)) && 1 <= |Concat(chunks)| < capacity then Some(Concat(chunks)) else None
  }

  ghost predicate Carries(wire: Bytes, chunks: seq<Bytes>, text: Bytes) {
    AreChunks(chunks) && wire == Wire(chunks) && text == Concat(chunks)
  }

  /** A text is decoded exactly when the record is a series of complete character-strings that make it up. */
  lemma TxtValueIffCarried(wire: Bytes, capacity: nat, text: Bytes)
    ensures TxtValue(wire, capacity) == Some(text)
            <==> (exists chunks: seq<Bytes> :: Carries(wire, chunks, text)) && AllPrintable(text)
                 && 1 <= |text| < capacity
  {
    if Chunks(wire).Some? {
      ChunksIffWire(wire, Chunks(wire).value);
      assert Carries(wire, Chunks(wire).value, Concat(Chunks(wire).value));
    }
    if chunks: seq<Bytes> :| Carries(wire, chunks, text) {
      ChunksIffWire(wire, chunks);
    }
  }

  lemma {:induction false} ConcatAppend(first: seq<Bytes>, second: seq<Bytes>)
    ensures Concat(first + second) == Concat(first) + Concat(second)
  {
    if first == [] {
      AppendNothing(second);
      AppendNothing(Concat(second));
    } else {
      ConcatAppend(first[1..], second);
      TailOfAppend(first, second);
      AppendAssociates(first[0], Concat(first[1..]), Concat(second));
    }
  }

  /** What a decoder that has taken `done` and stands at `rest` will find. */
  function Resumed(done: seq<Bytes>, rest: Bytes): Option<seq<Bytes>> {
    match Chunks(rest)
    case None => None
    case Some(more) => Some(done + more)
  }

  lemma ResumedStep(done: seq<Bytes>, rest: Bytes)
    requires rest != [] && 1 + rest[0] <= |rest|
    ensures Resumed(done, rest) == Resumed(done + [rest[1..1 + rest[0]]], rest[1 + rest[0]..])
  {
    var chunk := rest[1..1 + rest[0]];
    if Chunks(rest[1 + rest[0]..]).Some? {
      var more := Chunks(rest[1 + rest[0]..]).value;
      assert done + ([chunk] + more) == (done + [chunk]) + more;
    }
  }

  /** A chunk that is too long or not printable spoils the whole record. */
  lemma SpoiledChunk(wire: Bytes, capacity: nat, done: seq<Bytes>, rest: Bytes)
    requires Chunks(wire) == Resumed(done, rest) && rest != [] && 1 + rest[0] <= |rest|
    requires |Concat(done)| + rest[0] >= capacity || !AllPrintable(rest[1..1 + rest[0]])
    ensures TxtValue(wire, capacity) == None
  {
    if Chunks(wire).Some? {
      var chunk, more := rest[1..1 + rest[0]], Chunks(rest[1 + rest[0]..]).value;
      var before, text := |Concat(done)|, Concat(Chunks(wire).value);
      ConcatAppend(done, [chunk] + more);
      assert text == Concat(done) + (chunk + Concat(more));
      if !AllPrintable(chunk) {
        var i :| 0 <= i < |chunk| && !IsPrintable(chunk[i]);
        assert text[before + i] == chunk[i];
      }
    }
  }

  lemma TakenChunk(wire: Bytes, capacity: nat, done: seq<Bytes>, rest: Bytes)
    requires Chunks(wire) == Resumed(done, rest) && rest != [] && 1 + rest[0] <= |rest|
    ensures Chunks(wire) == Resumed(done + [rest[1..1 + rest[0]]], rest[1 + rest[0]..])
    ensures Concat(done + [rest[1..1 + rest[0]]]) == Concat(done) + rest[1..1 + rest[0]]
  {
    ResumedStep(done, rest);
    ConcatAppend(done, [rest[1..1 + rest[0]]]);
    assert Concat([rest[1..1 + rest[0]]]) == rest[1..1 + rest[0]] + [];
  }

  /** Appends one chunk to the text in the buffer. */
  method CopyChunk(chunk: Bytes, output: array<Byte>, used: nat) returns (copied: bool)
    requires used + |chunk| < output.Length
    modifies output
    ensures copied <==> AllPrintable(chunk)
    ensures copied ==> output[..used + |chunk|] == old(output[..used]) + chunk
  {
    for i := 0 to |chunk|
      invariant AllPrintable(chunk[..i])
      invariant output[..used + i] == old(output[..used]) + chunk[..i]
    {
      if chunk[i] < 0x20 || chunk[i] > 0x7e {
        return false;
      }
      output[used + i] := chunk[i];
      assert chunk[..i + 1] == chunk[..i] + [chunk[i]];
    }
    assert chunk[..|chunk|] == chunk;
    return true;
  }

  lemma SliceOfTail(wire: Bytes, start: nat, n: nat)
    requires start + 1 + n <= |wire|
    ensures wire[start..][1..1 + n] == wire[start + 1..start + 1 + n]
    ensures wire[start..][1 + n..] == wire[start + 1 + n..]
  {
  }

  /** The decoder has read up to `offset` the chunks `done`, which make up `text`. */
  predicate Taken(wire: Bytes, offset: nat, done: seq<Bytes>, text: Bytes) {
    && offset <= |wire| && Chunks(wire) == Resumed(done, wire[offset..])
    && text == Concat(done) && AllPrintable(text)
  }

  lemma NothingTaken(wire: Bytes)
    ensures Taken(wire, 0, [], [])
  {
    assert wire[0..] == wire;
    if Chunks(wire).Some? {
      AppendNothing(Chunks(wire).value);
    }
  }

  /** Where the decoder gives up, the record has no text. */
  lemma GivesUp(wire: Bytes, capacity: nat, offset: nat, done: seq<Bytes>, text: Bytes)
    requires Taken(wire, offset, done, text) && offset < |wire|
    requires var end := offset + 1 + wire[offset];
             end > |wire| || |text| + wire[offset] >= capacity || !AllPrintable(wire[offset + 1..end])
    ensures TxtValue(wire, capacity).None?
  {
    if offset + 1 + wire[offset] <= |wire| {
      SliceOfTail(wire, offset, wire[offset]);
      SpoiledChunk(wire, capacity, done, wire[offset..]);
    }
  }

  lemma TakesOne(wire: Bytes, capacity: nat, offset: nat, done: seq<Bytes>, text: Bytes)
    requires Taken(wire, offset, done, text) && offset < |wire| && offset + 1 + wire[offset] <= |wire|
    requires AllPrintable(wire[offset + 1..offset + 1 + wire[offset]])
    ensures var end := offset + 1 + wire[offset];
            var chunk := wire[offset + 1..end];
            Taken(wire, end, done + [chunk], text + chunk)
  {
    SliceOfTail(wire, offset, wire[offset]);
    TakenChunk(wire, capacity, done, wire[offset..]);
  }

  lemma AllTaken(wire: Bytes, capacity: nat, done: seq<Bytes>, text: Bytes)
    requires Taken(wire, |wire|, done, text) && |text| < capacity
    ensures TxtValue(wire, capacity) == if text == [] then None else Some(text)
  {
    AppendNothing(done);
  }

  /** Decodes record data into a buffer and ends the text with a zero byte. */
  method FlattenTxtRdata(wire: Bytes, output: array<Byte>) returns (decoded: bool)
    requires output.Length > 0
    modifies output
    ensures decoded <==> TxtValue(wire, output.Length).Some?
    ensures decoded ==> var text := TxtValue(wire, output.Length).value; output[..|text| + 1] == text + [0]
  {
    var offset, used := 0, 0;
    ghost var done: seq<Bytes> := [];
    NothingTaken(wire);
    while offset < |wire|
      invariant 0 <= used < output.Length && Taken(wire, offset, done, output[..used])
    {
      ghost var start, text := offset, output[..used];
      var chunkLength := wire[offset];
      offset := offset + 1;
      if offset + chunkLength > |wire| || used + chunkLength >= output.Length {
        GivesUp(wire, output.Length, start, done, text);
        return false;
      }
      var chunk := wire[offset..offset + chunkLength];
      var copied := CopyChunk(chunk, output, used);
      if !copied {
        GivesUp(wire, output.Length, start, done, text);
        return false;
      }
      TakesOne(wire, output.Length, start, done, text);
      used := used + chunkLength;
      offset := offset + chunkLength;
      done := done + [chunk];
    }
    AllTaken(wire, output.Length, done, output[..used]);
    output[used] := 0;
    return used > 0;
  }

  // ---------------------------------------------------------------------------
  // JSON strings

  function HexDigit(d: nat): Byte
    requires d < 16
  {
    if d < 10 then 0x30 + d else 0x57 + d
  }

  function Escaped(c: Byte): Bytes {
    if c == QUOTE || c == BACKSLASH then [BACKSLASH, c]
    else if c < 0x20 then [BACKSLASH, 0x75, 0x30, 0x30, HexDigit(c / 16), HexDigit(c % 16)]
    else [c]
  }

  function EscapedAll(value: Bytes): Bytes {
    if value == [] then [] else EscapedAll(value[..|value| - 1]) + Escaped(value[|value| - 1])
  }

  lemma EscapedAllSnoc(value: Bytes, c: Byte)
    ensures EscapedAll(value + [c]) == EscapedAll(value) + Escaped(c)
  {
    FrontOfSnoc(value, c);
  }

  lemma OneMoreEscaped(value: Bytes, i: nat)
    requires i < |value|
    ensures [QUOTE] + EscapedAll(value[..i + 1]) == ([QUOTE] + EscapedAll(value[..i])) + Escaped(value[i])
  {
    assert value[..i + 1] == value[..i] + [value[i]];
    EscapedAllSnoc(value[..i], value[i]);
    AppendAssociates([QUOTE], EscapedAll(value[..i]), Escaped(value[i]));
  }

  /** Prints a string literal. */
  method EmitJsonString(value: Bytes) returns (text: Bytes)
    ensures text == [QUOTE] + EscapedAll(value) + [QUOTE]
  {
    text := [QUOTE];
    AppendNothing(text);
    for i := 0 to |value|
      invariant text == [QUOTE] + EscapedAll(value[..i])
    {
      var c := value[i];
      OneMoreEscaped(value, i);
      if c == QUOTE || c == BACKSLASH {
        text := text + [BACKSLASH, c];
      } else if c < 0x20 {
        text := text + [BACKSLASH, 0x75, 0x30, 0x30, HexDigit(c / 16), HexDigit(c % 16)];
      } else {
        text := text + [c];
      }
    }
    assert value[..|value|] == value;
    text := text + [QUOTE];
  }

  function HexValue(c: Byte): Option<nat> {
    if 0x30 <= c <= 0x39 then Some(c - 0x30)
    else if 0x61 <= c <= 0x66 then Some(c - 0x57)
    else if 0x41 <= c <= 0x46 then Some(c - 0x37)
    else None
  }

  /** The single-character escapes of section 7 of RFC 8259. */
  function ShortEscape(c: Byte): Option<Byte> {
    match c
    case 0x22 => Some(0x22)
    case 0x5c => Some(0x5c)
    case 0x2f => Some(0x2f)
    case 0x62 => Some(0x08)
    case 0x66 => Some(0x0c)
    case 0x6e => Some(0x0a)
    case 0x72 => Some(0x0d)
    case 0x74 => Some(0x09)
    case _ => None
  }

  function HexFour(s: Bytes): Option<nat>
    requires |s| == 4
  {
    match (HexValue(s[0]), HexValue(s[1]), HexValue(s[2]), HexValue(s[3]))
    case (Some(a), Some(b), Some(c), Some(d)) => Some(((a * 16 + b) * 16 + c) * 16 + d)
    case _ => None
  }

  /** One character of a JSON string, as a byte, and the text after it. Characters beyond ASCII travel as raw bytes;
      escapes of them are not read. */
  function ReadCharacter(s: Bytes): Option<(Byte, Bytes)>
    requires s != []
  {
    if s[0] < 0x20 || s[0] == QUOTE then None
    else if s[0] != BACKSLASH then Some((s[0], s[1..]))
    else if |s| >= 6 && s[1] == 0x75 then
      match HexFour(s[2..6])
      case Some(code) => if code < 0x80 then Some((code, s[6..])) else None
      case None => None
    else if |s| >= 2 then
      match ShortEscape(s[1])
      case Some(c) => Some((c, s[2..]))
      case None => None
    else None
  }

  /** The characters up to the closing quotation mark, and the text after it. */
  function ReadCharacters(s: Bytes): Option<(Bytes, Bytes)>
    decreases |s|
  {
    if s == [] then None
    else if s[0] == QUOTE then Some(([], s[1..]))
    else
      match ReadCharacter(s)
      case None => None
      case Some((c, rest)) =>
        match ReadCharacters(rest)
        case None => None
        case Some((more, after)) => Some(([c] + more, after))
  }

  /** A JSON string at the start of a document, and the rest of the document. */
  function ReadString(s: Bytes): Option<(Bytes, Bytes)> {
    if s == [] || s[0] != QUOTE then None else ReadCharacters(s[1..])
  }

  lemma ReadsEscaped(c: Byte, after: Bytes)
    ensures ReadCharacter(Escaped(c) + after) == Some((c, after))
    ensures (Escaped(c) + after)[0] != QUOTE
  {
    var s := Escaped(c) + after;
    if c == QUOTE || c == BACKSLASH {
      assert s[2..] == after;
    } else if c < 0x20 {
      assert s[2..6] == [0x30, 0x30, HexDigit(c / 16), HexDigit(c % 16)];
      assert s[6..] == after;
    } else {
      assert s[1..] == after;
    }
  }

  predicate Reads(text: Bytes, value: Bytes, after: Bytes) {
    ReadCharacters(text) == Some((value, after))
  }

  lemma ReadsOneMore(c: Byte, text: Bytes, value: Bytes, after: Bytes)
    requires Reads(text, value, after)
    ensures Reads(Escaped(c) + text, [c] + value, after)
  {
    ReadsEscaped(c, text);
  }

  lemma EscapedAllLast(value: Bytes, c: Byte, text: Bytes, more: Bytes)
    ensures EscapedAll(value + [c]) + text == EscapedAll(value) + (Escaped(c) + text)
    ensures (value + [c]) + more == value + ([c] + more)
  {
    FrontOfSnoc(value, c);
    EscapedAllSnoc(value, c);
    AppendAssociates(EscapedAll(value), Escaped(c), text);
    AppendAssociates(value, [c], more);
  }

  lemma {:induction false} ReadsEscapedAll(value: Bytes, text: Bytes, more: Bytes, after: Bytes)
    requires Reads(text, more, after)
    ensures Reads(EscapedAll(value) + text, value + more, after)
    decreases |value|
  {
    if value == [] {
      assert EscapedAll(value) + text == text && value + more == more;
    } else {
      var front, c := value[..|value| - 1], value[|value| - 1];
      ReadsOneMore(c, text, more, after);
      ReadsEscapedAll(front, Escaped(c) + text, [c] + more, after);
      EscapedAllLast(front, c, text, more);
      assert front + [c] == value;
    }
  }

  lemma ReadsQuoted(text: Bytes, value: Bytes, after: Bytes)
    requires Reads(text, value, after)
    ensures ReadString([QUOTE] + text) == Some((value, after))
  {
    assert ([QUOTE] + text)[1..] == text;
  }

  lemma QuotedAssociates(text: Bytes, after: Bytes)
    ensures [QUOTE] + text + [QUOTE] + after == [QUOTE] + (text + ([QUOTE] + after))
  {
  }

  lemma ClosingReads(after: Bytes)
    ensures Reads([QUOTE] + after, [], after)
  {
    assert ([QUOTE] + after)[1..] == after;
  }

  /** Inside any document, the emitted string is read back as the value, and reading stops behind it. */
  lemma JsonRoundTrip(value: Bytes, after: Bytes)
    ensures ReadString([QUOTE] + EscapedAll(value) + [QUOTE] + after) == Some((value, after))
  {
    var closing := [QUOTE] + after;
    ClosingReads(after);
    ReadsEscapedAll(value, closing, [], after);
    AppendNothing(value);
    QuotedAssociates(EscapedAll(value), after);
    ReadsQuoted(EscapedAll(value) + closing, value, after);
  }

  // ---------------------------------------------------------------------------
  // The answer and the lifetime of its proof

  const VALUE_CAPACITY: nat := 1024
  const MAX_TTL := 300
  const LATEST: int := 0x7fff_ffff_ffff_ffff

  type Seconds = x: int | 0 <= x < 0x1_0000_0000

  datatype Kind = Txt | Rrsig(coversTxt: bool, expiration: Seconds) | Other

  datatype Record = Record(kind: Kind, classIn: bool, ownerMatches: bool)

  /** What the resolver reports beside the packet, and the packet's question and answer. */
  datatype Answer = Answer(ttl: int, data: seq<Bytes>, wellFormed: bool, questionMatches: bool, records: seq<Record>)

  predicate IsSignature(r: Record) {
    r.kind.Rrsig? && r.kind.coversTxt && r.classIn && r.ownerMatches
  }

  predicate IsText(r: Record) {
    r.kind.Txt? && r.classIn && r.ownerMatches
  }

  predicate OnlyTextAndSignatures(records: seq<Record>) {
    forall i :: 0 <= i < |records| ==> IsText(records[i]) || IsSignature(records[i])
  }

  /** Exactly one text, at least one signature, nothing else, and data that decodes. */
  predicate IsExact(a: Answer) {
    && a.wellFormed && a.questionMatches
    && OnlyTextAndSignatures(a.records)
    && (exists i :: 0 <= i < |a.records| && IsText(a.records[i]))
    && (forall i, j :: 0 <= i < j < |a.records| ==> !(IsText(a.records[i]) && IsText(a.records[j])))
    && (exists i :: 0 <= i < |a.records| && IsSignature(a.records[i]))
    && |a.data| == 1 && TxtValue(a.data[0], VALUE_CAPACITY).Some?
  }

  /** The earliest expiration of the signatures. */
  predicate IsEarliest(records: seq<Record>, expiry: int) {
    && (exists i :: 0 <= i < |records| && IsSignature(records[i]) && records[i].kind.expiration == expiry)
    && (forall i :: 0 <= i < |records| && IsSignature(records[i]) ==> expiry <= records[i].kind.expiration)
  }

  method Decode(wire: Bytes, capacity: nat) returns (text: Option<Bytes>)
    requires capacity > 0
    ensures text == TxtValue(wire, capacity)
  {
    var buffer := new Byte[capacity];
    var decoded := FlattenTxtRdata(wire, buffer);
    if !decoded {
      return None;
    }
    ghost var value := TxtValue(wire, capacity).value;
    var length := 0;
    assert forall i :: 0 <= i <= |value| ==> buffer[i] == buffer[..|value| + 1][i];
    while buffer[length] != 0
      invariant 0 <= length <= |value|
      decreases |value| - length
    {
      length := length + 1;
    }
    assert forall i :: 0 <= i < |value| ==> IsPrintable(value[i]);
    assert buffer[..length] == buffer[..|value| + 1][..length];
    return Some(buffer[..length]);
  }

  function Texts(records: seq<Record>): nat {
    if records == [] then 0
    else Texts(records[..|records| - 1]) + if IsText(records[|records| - 1]) then 1 else 0
  }

  lemma {:induction false} OneText(records: seq<Record>)
    ensures Texts(records) == 0 <==> forall i :: 0 <= i < |records| ==> !IsText(records[i])
    ensures Texts(records) <= 1
            <==> forall i, j :: 0 <= i < j < |records| ==> !(IsText(records[i]) && IsText(records[j]))
  {
    if records == [] {
    } else {
      var front, last := records[..|records| - 1], records[|records| - 1];
      OneText(front);
      if Texts(front) > 0 && IsText(last) {
        var i :| 0 <= i < |front| && IsText(front[i]);
        assert IsText(records[i]) && IsText(records[|front|]);
      }
      assert forall i :: 0 <= i < |front| ==> records[i] == front[i];
    }
  }

  lemma {:induction false} TextsOfPrefix(records: seq<Record>, n: nat)
    requires n <= |records|
    ensures Texts(records[..n]) <= Texts(records)
  {
    if n < |records| {
      TextsOfPrefix(records[..|records| - 1], n);
      assert records[..|records| - 1][..n] == records[..n];
    } else {
      assert records[..n] == records;
    }
  }

  /** What the counts and the earliest expiration say about the records seen so far. */
  predicate Scanned(seen: seq<Record>, texts: nat, signatures: nat, earliest: int) {
    && OnlyTextAndSignatures(seen) && texts == Texts(seen)
    && if signatures == 0 then earliest == LATEST && forall i :: 0 <= i < |seen| ==> !IsSignature(seen[i])
       else IsEarliest(seen, earliest)
  }

  lemma ScannedText(seen: seq<Record>, r: Record, texts: nat, signatures: nat, earliest: int)
    requires Scanned(seen, texts, signatures, earliest) && IsText(r)
    ensures Scanned(seen + [r], texts + 1, signatures, earliest)
  {
    assert (seen + [r])[..|seen|] == seen;
    if signatures > 0 {
      var i :| 0 <= i < |seen| && IsSignature(seen[i]) && seen[i].kind.expiration == earliest;
      assert (seen + [r])[i] == seen[i];
    }
  }

  lemma ScannedSignature(seen: seq<Record>, r: Record, texts: nat, signatures: nat, earliest: int)
    requires Scanned(seen, texts, signatures, earliest) && IsSignature(r)
    ensures var expiration := r.kind.expiration;
            Scanned(seen + [r], texts, signatures + 1, if expiration < earliest then expiration else earliest)
  {
    var all := seen + [r];
    assert all[..|seen|] == seen && all[|seen|] == r;
    if signatures > 0 {
      var i :| 0 <= i < |seen| && IsSignature(seen[i]) && seen[i].kind.expiration == earliest;
      assert all[i] == seen[i];
    }
  }

  lemma ForeignRecord(a: Answer, i: nat)
    requires i < |a.records| && !IsText(a.records[i]) && !IsSignature(a.records[i])
    ensures !IsExact(a)
  {
  }

  lemma SecondText(a: Answer, i: nat)
    requires i < |a.records| && Texts(a.records[..i + 1]) > 1
    ensures !IsExact(a)
  {
    TextsOfPrefix(a.records, i + 1);
    OneText(a.records);
  }

  lemma ScannedAll(a: Answer, texts: nat, signatures: nat, earliest: int)
    requires Scanned(a.records, texts, signatures, earliest) && a.wellFormed && a.questionMatches
    requires texts == 1 ==> |a.data| == 1 && TxtValue(a.data[0], VALUE_CAPACITY).Some?
    ensures IsExact(a) <==> texts == 1 && signatures > 0
    ensures signatures > 0 ==> IsEarliest(a.records, earliest)
  {
    OneText(a.records);
  }

  /** One more record, and what the counts and the earliest expiration become. */
  lemma ScannedOne(a: Answer, i: nat, texts: nat, signatures: nat, earliest: int)
    requires i < |a.records| && Scanned(a.records[..i], texts, signatures, earliest)
    ensures var r := a.records[i];
            if IsText(r) then Scanned(a.records[..i + 1], texts + 1, signatures, earliest)
            else if IsSignature(r) then
              Scanned(a.records[..i + 1], texts, signatures + 1,
                      if r.kind.expiration < earliest then r.kind.expiration else earliest)
            else !IsExact(a)
  {
    var r := a.records[i];
    assert a.records[..i + 1] == a.records[..i] + [r];
    if IsText(r) {
      ScannedText(a.records[..i], r, texts, signatures, earliest);
    } else if IsSignature(r) {
      ScannedSignature(a.records[..i], r, texts, signatures, earliest);
    } else {
      ForeignRecord(a, i);
    }
  }

  /** The text and the earliest expiration of an exact answer, and nothing of any other. */
  method ExactAnswer(a: Answer) returns (exact: Option<(Bytes, int)>)
    ensures exact.Some? <==> IsExact(a)
    ensures exact.Some? ==> Some(exact.value.0) == TxtValue(a.data[0], VALUE_CAPACITY)
                            && IsEarliest(a.records, exact.value.1)
  {
    if !a.wellFormed || !a.questionMatches {
      return None;
    }
    var txtCount, signatureCount, earliest := 0, 0, LATEST;
    var text: Option<Bytes> := None;
    for i := 0 to |a.records|
      invariant Scanned(a.records[..i], txtCount, signatureCount, earliest)
      invariant txtCount <= 1
      invariant txtCount == 1 ==> |a.data| == 1 && text == TxtValue(a.data[0], VALUE_CAPACITY) && text.Some?
    {
      var record := a.records[i];
      ScannedOne(a, i, txtCount, signatureCount, earliest);
      if !record.classIn || !record.ownerMatches {
        return None;
      }
      match record.kind {
        case Txt =>
          txtCount := txtCount + 1;
          if txtCount != 1 || |a.data| != 1 {
            if txtCount != 1 {
              SecondText(a, i);
            }
            return None;
          }
          text := Decode(a.data[0], VALUE_CAPACITY);
          if text.None? {
            return None;
          }
        case Rrsig(coversTxt, expiration) =>
          if !coversTxt {
            return None;
          }
          if expiration < earliest {
            earliest := expiration;
          }
          signatureCount := signatureCount + 1;
        case Other =>
          return None;
      }
    }
    assert a.records[..|a.records|] == a.records;
    ScannedAll(a, txtCount, signatureCount, earliest);
    if txtCount != 1 || signatureCount == 0 {
      return None;
    }
    return Some((text.value, earliest));
  }

  /** What resolving the name came to; libunbound's flags, and whether the name it answered is the one asked. */
  datatype Resolution = Failed | Resolved(bogus: bool, secure: bool, found: bool, sameName: bool, answer: Answer)

  datatype Reason = InvalidQueryName | ResolutionFailed | Bogus | NotSecure | NotFound | AliasOrMismatch
                  | NotExact | SignatureExpired | ProofExpired

  datatype Proof = Refused(reason: Reason) | Verified(value: Bytes, checkedAt: int, ttl: int, expiry: int)

  /** No signature of the answer expires before the end of the proof. */
  predicate Outlives(records: seq<Record>, end: int) {
    forall i :: 0 <= i < |records| && IsSignature(records[i]) ==> end <= records[i].kind.expiration
  }

  predicate IsTrusted(r: Resolution) {
    r.Resolved? && !r.bogus && r.secure && r.found && r.sameName
  }

  /** What each reason says is wrong. */
  ghost predicate Fails(reason: Reason, name: Bytes, resolution: Resolution, checkedAt: int) {
    match reason
    case InvalidQueryName => !IsQueryName(name)
    case ResolutionFailed => resolution.Failed?
    case Bogus => resolution.Resolved? && resolution.bogus
    case NotSecure => resolution.Resolved? && !resolution.secure
    case NotFound => resolution.Resolved? && !resolution.found
    case AliasOrMismatch => resolution.Resolved? && !resolution.sameName
    case NotExact => resolution.Resolved? && (resolution.answer.ttl <= 0 || !IsExact(resolution.answer))
    case SignatureExpired => resolution.Resolved? && !Outlives(resolution.answer.records, checkedAt + 1)
    case ProofExpired => false
  }

  /** The order in which the reasons are looked for. */
  function Rank(reason: Reason): nat {
    match reason
    case InvalidQueryName => 0
    case ResolutionFailed => 1
    case Bogus => 2
    case NotSecure => 3
    case NotFound => 4
    case AliasOrMismatch => 5
    case NotExact => 6
    case SignatureExpired => 7
    case ProofExpired => 8
  }

  ghost predicate IsFirstFailure(reason: Reason, name: Bytes, resolution: Resolution, checkedAt: int) {
    && Fails(reason, name, resolution, checkedAt)
    && forall other: Reason :: Rank(other) < Rank(reason) ==> !Fails(other, name, resolution, checkedAt)
  }

  lemma Expired(a: Answer, expiry: int, checkedAt: int)
    requires IsEarliest(a.records, expiry)
    ensures Outlives(a.records, checkedAt + 1) <==> checkedAt < expiry
  {
  }

  /** A proof is given exactly for a valid name and a trusted, exact answer none of whose signatures has expired. It
      lives for at least a second, as long as the three bounds allow, and never reports itself expired. A refusal names
      the first thing that is wrong. */
  method Prove(name: Bytes, resolution: Resolution, checkedAt: int) returns (proof: Proof)
    ensures proof.Verified?
            <==> IsQueryName(name) && IsTrusted(resolution) && resolution.answer.ttl > 0 && IsExact(resolution.answer)
                 && Outlives(resolution.answer.records, checkedAt + 1)
    ensures proof.Verified? ==>
              var a := resolution.answer;
              && Some(proof.value) == TxtValue(a.data[0], 1024)
              && proof.checkedAt == checkedAt && IsEarliest(a.records, proof.expiry)
              && 1 <= proof.ttl <= 300 && proof.ttl <= a.ttl && Outlives(a.records, checkedAt + proof.ttl)
              && (proof.ttl == 300 || proof.ttl == a.ttl || checkedAt + proof.ttl == proof.expiry)
    ensures proof.Refused? ==> IsFirstFailure(proof.reason, name, resolution, checkedAt)
  {
    var named := ValidQname(name);
    if !named {
      return Refused(InvalidQueryName);
    }
    if resolution.Failed? {
      return Refused(ResolutionFailed);
    }
    if resolution.bogus {
      return Refused(Bogus);
    }
    if !resolution.secure {
      return Refused(NotSecure);
    }
    if !resolution.found {
      return Refused(NotFound);
    }
    if !resolution.sameName {
      return Refused(AliasOrMismatch);
    }
    var a := resolution.answer;
    if a.ttl <= 0 {
      return Refused(NotExact);
    }
    var exact := ExactAnswer(a);
    if exact.None? {
      return Refused(NotExact);
    }
    var (value, expiry) := exact.value;
    Expired(a, expiry, checkedAt);
    if expiry <= checkedAt {
      return Refused(SignatureExpired);
    }
    var ttl := a.ttl;
    if ttl > MAX_TTL {
      ttl := MAX_TTL;
    }
    if ttl > expiry - checkedAt {
      ttl := expiry - checkedAt;
    }
    if ttl <= 0 {
      return Refused(ProofExpired);
    }
    return Verified(value, checkedAt, ttl, expiry);
  }
}
