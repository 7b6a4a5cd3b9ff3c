/** The associated data of the three kinds of ciphertext as the text that is authenticated: the text determines the
record, whatever order its keys travel in, so the symbolic `Aad` loses nothing. */
module AssociatedData {
  import opened Wrappers
  import opened Numerals
  import opened Keys
  import opened JsonText
  import opened Canonical

  /** How public keys and epoch ids are written. */
  ghost predicate Injective(encode: nat -> string) {
    forall i, j :: encode(i) == encode(j) ==> i == j
  }

  /** A record as an object: names and values in the same order. */
  function Zip(names: seq<string>, values: seq<Json>): (fields: seq<Field>)
    requires |names| == |values|
    ensures |fields| == |names|
    ensures forall i :: 0 <= i < |names| ==> fields[i] == Field(names[i], values[i])
  {
    if names == [] then [] else [Field(names[0], values[0])] + Zip(names[1..], values[1..])
  }

  const HEADER_NAMES: seq<string> := ["dh", "pn", "n"]

  const PACKET_NAMES: seq<string> :=
    ["protocol", "conversationId", "sender", "senderDevice", "recipient", "recipientDevice", "header"]

  const GROUP_NAMES: seq<string> := ["sessionId", "epoch", "membershipHash", "senderDevice", "counter"]

  const SELF_NAMES: seq<string> := ["conversationId", "sender", "deviceId", "ephemeral"]

  function HeaderValues(header: Header, encode: nat -> string): (values: seq<Json>)
    ensures |values| == 3
  {
    [Json.Text(encode(header.dh)), Number(Integer(header.pn)), Number(Integer(header.n))]
  }

  function PacketValues(base: Base, header: Json): (values: seq<Json>)
    ensures |values| == 7
  {
    [Json.Text(PROTOCOL), Json.Text(base.conversation), Json.Text(base.sender), Json.Text(base.senderDevice),
     Json.Text(base.recipient), Json.Text(base.recipientDevice), header]
  }

  function GroupValues(group: GroupHeader, encode: nat -> string): (values: seq<Json>)
    ensures |values| == 5
  {
    [Json.Text(group.sessionId), Json.Text(encode(group.epoch)), Json.Text(group.membership),
     Json.Text(group.senderDevice), Number(Integer(group.counter))]
  }

  function SelfValues(self: SelfHeader, encode: nat -> string): (values: seq<Json>)
    ensures |values| == 4
  {
    [Json.Text(self.conversation), Json.Text(self.sender), Json.Text(self.device), Json.Text(encode(self.ephemeral))]
  }

  /** The three records that are authenticated. */
  function FieldsOf(aad: Aad, encode: nat -> string): seq<Field> {
    match aad
    case PacketAad(base, header) =>
      Zip(PACKET_NAMES, PacketValues(base, Object(Zip(HEADER_NAMES, HeaderValues(header, encode)))))
    case GroupAad(group) => Zip(GROUP_NAMES, GroupValues(group, encode))
    case SelfAad(self) => Zip(SELF_NAMES, SelfValues(self, encode))
  }

  // ---------------------------------------------------------------------------
  // What the records say

  predicate Says(fields: seq<Field>, name: string, json: Json) {
    Field(name, json) in fields
  }

  lemma SaysAt(fields: seq<Field>, i: nat)
    requires i < |fields|
    ensures Says(fields, fields[i].name, fields[i].json)
  {
  }

  /** The property of a record under each name of its format, and no other property. */
  predicate IsHeaderRecord(fields: seq<Field>, header: Header, encode: nat -> string) {
    && |fields| == 3
    && Says(fields, "dh", Json.Text(encode(header.dh)))
    && Says(fields, "pn", Number(Integer(header.pn)))
    && Says(fields, "n", Number(Integer(header.n)))
  }

  predicate IsPacketRecord(fields: seq<Field>, base: Base, header: seq<Field>) {
    && |fields| == 7
    && Says(fields, "protocol", Json.Text("itonami-signal-v1"))
    && Says(fields, "conversationId", Json.Text(base.conversation))
    && Says(fields, "sender", Json.Text(base.sender))
    && Says(fields, "senderDevice", Json.Text(base.senderDevice))
    && Says(fields, "recipient", Json.Text(base.recipient))
    && Says(fields, "recipientDevice", Json.Text(base.recipientDevice))
    && Says(fields, "header", Object(header))
  }

  predicate IsGroupRecord(fields: seq<Field>, group: GroupHeader, encode: nat -> string) {
    && |fields| == 5
    && Says(fields, "sessionId", Json.Text(group.sessionId))
    && Says(fields, "epoch", Json.Text(encode(group.epoch)))
    && Says(fields, "membershipHash", Json.Text(group.membership))
    && Says(fields, "senderDevice", Json.Text(group.senderDevice))
    && Says(fields, "counter", Number(Integer(group.counter)))
  }

  predicate IsSelfRecord(fields: seq<Field>, self: SelfHeader, encode: nat -> string) {
    && |fields| == 4
    && Says(fields, "conversationId", Json.Text(self.conversation))
    && Says(fields, "sender", Json.Text(self.sender))
    && Says(fields, "deviceId", Json.Text(self.device))
    && Says(fields, "ephemeral", Json.Text(encode(self.ephemeral)))
  }

  lemma HeaderRecord(header: Header, encode: nat -> string)
    ensures IsHeaderRecord(Zip(HEADER_NAMES, HeaderValues(header, encode)), header, encode)
  {
    var fields := Zip(HEADER_NAMES, HeaderValues(header, encode));
    SaysAt(fields, 0);
    SaysAt(fields, 1);
    SaysAt(fields, 2);
  }

  lemma PacketRecord(base: Base, header: seq<Field>)
    ensures IsPacketRecord(Zip(PACKET_NAMES, PacketValues(base, Object(header))), base, header)
  {
    var fields := Zip(PACKET_NAMES, PacketValues(base, Object(header)));
    SaysAt(fields, 0);
    SaysAt(fields, 1);
    SaysAt(fields, 2);
    SaysAt(fields, 3);
    SaysAt(fields, 4);
    SaysAt(fields, 5);
    SaysAt(fields, 6);
  }

  lemma GroupRecord(group: GroupHeader, encode: nat -> string)
    ensures IsGroupRecord(Zip(GROUP_NAMES, GroupValues(group, encode)), group, encode)
  {
    var fields := Zip(GROUP_NAMES, GroupValues(group, encode));
    SaysAt(fields, 0);
    SaysAt(fields, 1);
    SaysAt(fields, 2);
    SaysAt(fields, 3);
    SaysAt(fields, 4);
  }

  lemma SelfRecord(self: SelfHeader, encode: nat -> string)
    ensures IsSelfRecord(Zip(SELF_NAMES, SelfValues(self, encode)), self, encode)
  {
    var fields := Zip(SELF_NAMES, SelfValues(self, encode));
    SaysAt(fields, 0);
    SaysAt(fields, 1);
    SaysAt(fields, 2);
    SaysAt(fields, 3);
  }

  /** The fields are the record of this ciphertext: a value for each name of its format, and nothing else. */
  ghost predicate IsRecordOf(fields: seq<Field>, aad: Aad, encode: nat -> string) {
    match aad
    case PacketAad(base, header) =>
      exists inner :: IsPacketRecord(fields, base, inner) && IsHeaderRecord(inner, header, encode)
    case GroupAad(group) => IsGroupRecord(fields, group, encode)
    case SelfAad(self) => IsSelfRecord(fields, self, encode)
  }

  lemma FieldsAreRecord(aad: Aad, encode: nat -> string)
    ensures IsRecordOf(FieldsOf(aad, encode), aad, encode)
  {
    match aad
    case PacketAad(base, header) =>
      HeaderRecord(header, encode);
      PacketRecord(base, Zip(HEADER_NAMES, HeaderValues(header, encode)));
    case GroupAad(group) => GroupRecord(group, encode);
    case SelfAad(self) => SelfRecord(self, encode);
  }

  // ---------------------------------------------------------------------------
  // Records of one kind

  lemma ZipNames(names: seq<string>, values: seq<Json>)
    requires |names| == |values|
    ensures Names(Zip(names, values)) == names
  {
    NamesAt(Zip(names, values));
  }

  lemma SimilarFieldAt(fields: seq<Field>, others: seq<Field>, i: nat)
    requires Similar(Object(fields), Object(others)) && DistinctNames(Names(others))
    requires i < |fields| && i < |others| && fields[i].name == others[i].name
    ensures Similar(fields[i].json, others[i].json)
  {
    LookupAt(others, i);
  }

  /** Similar records over the same names have similar values, one by one. */
  lemma SimilarValues(names: seq<string>, values: seq<Json>, others: seq<Json>)
    requires |names| == |values| == |others| && DistinctNames(names)
    requires Similar(Object(Zip(names, values)), Object(Zip(names, others)))
    ensures forall i :: 0 <= i < |names| ==> Similar(values[i], others[i])
  {
    ZipNames(names, others);
    forall i | 0 <= i < |names| ensures Similar(values[i], others[i]) {
      SimilarFieldAt(Zip(names, values), Zip(names, others), i);
    }
  }

  lemma SimilarSize(fields: seq<Field>, others: seq<Field>)
    requires Similar(Object(fields), Object(others))
    ensures |fields| == |others|
  {
    NamesAt(fields);
    NamesAt(others);
    assert |multiset(Names(fields))| == |multiset(Names(others))|;
  }

  lemma HeaderNamesDiffer()
    ensures DistinctNames(HEADER_NAMES)
  {
    assert "dh" != "pn" && "dh" != "n" && "pn" != "n";
  }

  /** Names of different lengths are different. */
  lemma DifferByLength(names: seq<string>, sizes: seq<nat>)
    requires |names| == |sizes| && forall i :: 0 <= i < |names| ==> |names[i]| == sizes[i]
    ensures forall i, j :: 0 <= i < j < |names| && sizes[i] != sizes[j] ==> names[i] != names[j]
  {
  }

  lemma PacketNamesDiffer()
    ensures DistinctNames(PACKET_NAMES)
  {
    DifferByLength(PACKET_NAMES, [8, 14, 6, 12, 9, 15, 6]);
    assert "sender"[0] != "header"[0];
  }

  lemma GroupNamesDiffer()
    ensures DistinctNames(GROUP_NAMES)
  {
    DifferByLength(GROUP_NAMES, [9, 5, 14, 12, 7]);
  }

  lemma SelfNamesDiffer()
    ensures DistinctNames(SELF_NAMES)
  {
    DifferByLength(SELF_NAMES, [14, 6, 8, 9]);
  }

  lemma SimilarHeaders(names: seq<string>, a: Header, b: Header, encode: nat -> string)
    requires Injective(encode) && |names| == 3 && DistinctNames(names)
    requires Similar(Object(Zip(names, HeaderValues(a, encode))), Object(Zip(names, HeaderValues(b, encode))))
    ensures a == b
  {
    var left, right := HeaderValues(a, encode), HeaderValues(b, encode);
    SimilarValues(names, left, right);
    assert Similar(left[0], right[0]) && Similar(left[1], right[1]) && Similar(left[2], right[2]);
  }

  lemma SimilarBases(names: seq<string>, a: Base, b: Base, header: Json, other: Json)
    requires |names| == 7 && DistinctNames(names)
    requires Similar(Object(Zip(names, PacketValues(a, header))), Object(Zip(names, PacketValues(b, other))))
    ensures a == b && Similar(header, other)
  {
    var left, right := PacketValues(a, header), PacketValues(b, other);
    SimilarValues(names, left, right);
    assert Similar(left[1], right[1]) && Similar(left[2], right[2]) && Similar(left[3], right[3]);
    assert Similar(left[4], right[4]) && Similar(left[5], right[5]) && Similar(left[6], right[6]);
  }

  lemma SimilarGroups(names: seq<string>, a: GroupHeader, b: GroupHeader, encode: nat -> string)
    requires Injective(encode) && |names| == 5 && DistinctNames(names)
    requires Similar(Object(Zip(names, GroupValues(a, encode))), Object(Zip(names, GroupValues(b, encode))))
    ensures a == b
  {
    var left, right := GroupValues(a, encode), GroupValues(b, encode);
    SimilarValues(names, left, right);
    assert Similar(left[0], right[0]) && Similar(left[1], right[1]) && Similar(left[2], right[2]);
    assert Similar(left[3], right[3]) && Similar(left[4], right[4]);
  }

  lemma SimilarCopies(names: seq<string>, a: SelfHeader, b: SelfHeader, encode: nat -> string)
    requires Injective(encode) && |names| == 4 && DistinctNames(names)
    requires Similar(Object(Zip(names, SelfValues(a, encode))), Object(Zip(names, SelfValues(b, encode))))
    ensures a == b
  {
    var left, right := SelfValues(a, encode), SelfValues(b, encode);
    SimilarValues(names, left, right);
    assert Similar(left[0], right[0]) && Similar(left[1], right[1]);
    assert Similar(left[2], right[2]) && Similar(left[3], right[3]);
  }

  lemma ZipIsWellFormed(names: seq<string>, values: seq<Json>)
    requires |names| == |values| && DistinctNames(names) && forall i :: 0 <= i < |values| ==> WellFormed(values[i])
    ensures WellFormed(Object(Zip(names, values)))
  {
    ZipNames(names, values);
  }

  lemma AadIsWellFormed(aad: Aad, encode: nat -> string)
    ensures WellFormed(Object(FieldsOf(aad, encode)))
  {
    match aad
    case PacketAad(base, header) =>
      HeaderNamesDiffer();
      ZipIsWellFormed(HEADER_NAMES, HeaderValues(header, encode));
      PacketNamesDiffer();
      ZipIsWellFormed(PACKET_NAMES, PacketValues(base, Object(Zip(HEADER_NAMES, HeaderValues(header, encode)))));
    case GroupAad(group) =>
      GroupNamesDiffer();
      ZipIsWellFormed(GROUP_NAMES, GroupValues(group, encode));
    case SelfAad(self) =>
      SelfNamesDiffer();
      ZipIsWellFormed(SELF_NAMES, SelfValues(self, encode));
  }

  lemma SimilarAads(a: Aad, b: Aad, encode: nat -> string)
    requires Injective(encode)
    requires Similar(Object(FieldsOf(a, encode)), Object(FieldsOf(b, encode)))
    ensures a == b
  {
    SimilarSize(FieldsOf(a, encode), FieldsOf(b, encode));
    match a
    case PacketAad(base, header) =>
      PacketNamesDiffer();
      HeaderNamesDiffer();
      SimilarBases(PACKET_NAMES, base, b.base, Object(Zip(HEADER_NAMES, HeaderValues(header, encode))),
                   Object(Zip(HEADER_NAMES, HeaderValues(b.header, encode))));
      SimilarHeaders(HEADER_NAMES, header, b.header, encode);
    case GroupAad(group) =>
      GroupNamesDiffer();
      SimilarGroups(GROUP_NAMES, group, b.group, encode);
    case SelfAad(self) =>
      SelfNamesDiffer();
      SimilarCopies(SELF_NAMES, self, b.self, encode);
  }

  /** Sender and receiver authenticate the same text exactly when they mean the same record. */
  lemma TextDeterminesAad(a: Aad, b: Aad, encode: nat -> string)
    requires Injective(encode)
    ensures Stable(Object(FieldsOf(a, encode))) == Stable(Object(FieldsOf(b, encode))) <==> a == b
  {
    AadIsWellFormed(a, encode);
    AadIsWellFormed(b, encode);
    StableIffSimilar(Object(FieldsOf(a, encode)), Object(FieldsOf(b, encode)));
    if Similar(Object(FieldsOf(a, encode)), Object(FieldsOf(b, encode))) {
      SimilarAads(a, b, encode);
    }
  }

  /** A header that arrives with its keys in another order still gives the text that the sender authenticated. */
  lemma ParsedRecordGivesSameText(aad: Aad, encode: nat -> string, parsed: Json)
    requires WellFormed(parsed) && Similar(Object(FieldsOf(aad, encode)), parsed)
    ensures Stable(parsed) == Stable(Object(FieldsOf(aad, encode)))
  {
    AadIsWellFormed(aad, encode);
    StableIffSimilar(Object(FieldsOf(aad, encode)), parsed);
  }

  // ---------------------------------------------------------------------------
  // What a reader of the text finds

  lemma CanonicalSays(fields: seq<Field>, name: string, json: Json)
    requires DistinctNames(Names(fields)) && Says(fields, name, json)
    ensures Canonical.Canonical(Object(fields)).Object?
    ensures Says(Canonical.Canonical(Object(fields)).fields, name, Canonical.Canonical(json))
  {
    var j :| 0 <= j < |fields| && fields[j] == Field(name, json);
    var names := Order(Names(fields));
    CanonicalObject(fields);
    OrderHasNames(fields, name);
    NamesAt(fields);
    assert Names(fields)[j] in multiset(Names(fields));
    var i :| 0 <= i < |names| && names[i] == name;
    PickAt(CanonicalFields(fields), names);
    CanonicalLookup(fields, name);
    LookupAt(fields, j);
    SaysAt(Canonical.Canonical(Object(fields)).fields, i);
  }

  lemma CanonicalSize(fields: seq<Field>)
    requires WellFormed(Object(fields))
    ensures Canonical.Canonical(Object(fields)).Object? && |Canonical.Canonical(Object(fields)).fields| == |fields|
  {
    CanonicalObject(fields);
    CanonicalIsSimilar(Object(fields));
    SimilarSize(fields, Canonical.Canonical(Object(fields)).fields);
  }

  lemma CanonicalHeader(fields: seq<Field>, header: Header, encode: nat -> string)
    requires WellFormed(Object(fields)) && IsHeaderRecord(fields, header, encode)
    ensures Canonical.Canonical(Object(fields)).Object?
    ensures IsHeaderRecord(Canonical.Canonical(Object(fields)).fields, header, encode)
  {
    CanonicalSize(fields);
    CanonicalSays(fields, "dh", Json.Text(encode(header.dh)));
    CanonicalSays(fields, "pn", Number(Integer(header.pn)));
    CanonicalSays(fields, "n", Number(Integer(header.n)));
  }

  lemma CanonicalPacket(fields: seq<Field>, base: Base, inner: seq<Field>, header: Header, encode: nat -> string)
    requires WellFormed(Object(fields)) && IsPacketRecord(fields, base, inner)
    requires WellFormed(Object(inner)) && IsHeaderRecord(inner, header, encode)
    ensures Canonical.Canonical(Object(fields)).Object?
    ensures IsRecordOf(Canonical.Canonical(Object(fields)).fields, PacketAad(base, header), encode)
  {
    CanonicalSize(fields);
    CanonicalSays(fields, "protocol", Json.Text("itonami-signal-v1"));
    CanonicalSays(fields, "conversationId", Json.Text(base.conversation));
    CanonicalSays(fields, "sender", Json.Text(base.sender));
    CanonicalSays(fields, "senderDevice", Json.Text(base.senderDevice));
    CanonicalSays(fields, "recipient", Json.Text(base.recipient));
    CanonicalSays(fields, "recipientDevice", Json.Text(base.recipientDevice));
    CanonicalHeader(inner, header, encode);
    CanonicalSays(fields, "header", Object(inner));
    assert IsPacketRecord(Canonical.Canonical(Object(fields)).fields, base, Canonical.Canonical(Object(inner)).fields);
  }

  lemma CanonicalGroup(fields: seq<Field>, group: GroupHeader, encode: nat -> string)
    requires WellFormed(Object(fields)) && IsGroupRecord(fields, group, encode)
    ensures Canonical.Canonical(Object(fields)).Object?
    ensures IsGroupRecord(Canonical.Canonical(Object(fields)).fields, group, encode)
  {
    CanonicalSize(fields);
    CanonicalSays(fields, "sessionId", Json.Text(group.sessionId));
    CanonicalSays(fields, "epoch", Json.Text(encode(group.epoch)));
    CanonicalSays(fields, "membershipHash", Json.Text(group.membership));
    CanonicalSays(fields, "senderDevice", Json.Text(group.senderDevice));
    CanonicalSays(fields, "counter", Number(Integer(group.counter)));
  }

  lemma CanonicalSelf(fields: seq<Field>, self: SelfHeader, encode: nat -> string)
    requires WellFormed(Object(fields)) && IsSelfRecord(fields, self, encode)
    ensures Canonical.Canonical(Object(fields)).Object?
    ensures IsSelfRecord(Canonical.Canonical(Object(fields)).fields, self, encode)
  {
    CanonicalSize(fields);
    CanonicalSays(fields, "conversationId", Json.Text(self.conversation));
    CanonicalSays(fields, "sender", Json.Text(self.sender));
    CanonicalSays(fields, "deviceId", Json.Text(self.device));
    CanonicalSays(fields, "ephemeral", Json.Text(encode(self.ephemeral)));
  }

  lemma CanonicalIsRecord(fields: seq<Field>, aad: Aad, encode: nat -> string)
    requires WellFormed(Object(fields)) && IsRecordOf(fields, aad, encode)
    ensures var v := Canonical.Canonical(Object(fields)); v.Object? && IsRecordOf(v.fields, aad, encode)
  {
    match aad
    case PacketAad(base, header) =>
      var inner :| IsPacketRecord(fields, base, inner) && IsHeaderRecord(inner, header, encode);
      var i :| 0 <= i < |fields| && fields[i] == Field("header", Object(inner));
      CanonicalPacket(fields, base, inner, header, encode);
    case GroupAad(group) => CanonicalGroup(fields, group, encode);
    case SelfAad(self) => CanonicalSelf(fields, self, encode);
  }

  /** The authenticated text reads as the record of the ciphertext, with its keys in order at both levels. */
  lemma TextReadsAsRecord(aad: Aad, encode: nat -> string)
    ensures exists fields :: ReadValue(Stable(Object(FieldsOf(aad, encode)))) == Some((Object(fields), ""))
                             && IsRecordOf(fields, aad, encode) && IsOrdered(Object(fields))
  {
    var v := Object(FieldsOf(aad, encode));
    AadIsWellFormed(aad, encode);
    FieldsAreRecord(aad, encode);
    CanonicalIsRecord(FieldsOf(aad, encode), aad, encode);
    CanonicalIsOrdered(v);
    ValueReads(Canonical.Canonical(v), "");
  }
}
