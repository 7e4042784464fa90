/** Topic definitions and the version they hash to: `Topics::with_dormant` and `Fnv` of
    crates/graph/src/topics.rs. */
module TopicVersion {
  import opened Wrappers
  import opened Ordering
  import opened Text
  import opened Utf8

  datatype Assign = Classifier | Rules

  datatype MemberRule = MemberRule(
    noteType: Option<string>, sourceContext: Option<string>, contentContains: Option<string>)

  datatype TopicDef = TopicDef(
    name: string, caption: string, description: string, sourceLists: seq<string>, assign: Assign,
    members: seq<MemberRule>, reference: Option<string>, aliases: seq<string>, plugin: Option<string>)

  datatype SkipRule = SkipRule(noteType: Option<string>, sourceContext: Option<string>)

  /** `NoVersion` is the empty string of a brain with no topics. */
  datatype Version = NoVersion | Version(hash: bv64)

  datatype Topics = Topics(defs: seq<TopicDef>, skip: seq<SkipRule>, version: Version)

  // ── The hash ──

  const OFFSET: bv64 := 0xcbf2_9ce4_8422_2325
  const PRIME: bv64 := 0x0100_0000_01b3

  function HashStep(h: bv64, b: byte): bv64 {
    (h ^ (b as bv64)) * PRIME
  }

  function HashFrom(h: bv64, bytes: seq<byte>): bv64 {
    if bytes == [] then h else HashStep(HashFrom(h, bytes[..|bytes| - 1]), bytes[|bytes| - 1])
  }

  lemma {:induction false} HashConcat(h: bv64, a: seq<byte>, b: seq<byte>)
    ensures HashFrom(h, a + b) == HashFrom(HashFrom(h, a), b)
    decreases |b|
  {
    hide HashStep;
    if b == [] {
      assert a + b == a;
    } else {
      var n := |b| - 1;
      HashConcat(h, a, b[..n]);
      assert (a + b)[..|a + b| - 1] == a + b[..n];
    }
  }

  /** The running hash; `text` is what has been written so far. */
  class Fnv {
    var h: bv64
    ghost var text: string

    ghost predicate Valid()
      reads this
    {
      h == HashFrom(OFFSET, Encode(text))
    }

    constructor ()
      ensures Valid() && text == ""
    {
      h, text := OFFSET, "";
    }

    method Write(s: string)
      requires Valid()
      modifies this
      ensures Valid() && text == old(text) + s
    {
      hide HashStep, EncodeChar;
      var bytes := Encode(s);
      for i := 0 to |bytes|
        invariant h == HashFrom(old(h), bytes[..i]) && text == old(text)
      {
        assert bytes[..i + 1][..i] == bytes[..i];
        h := HashStep(h, bytes[i]);
      }
      assert bytes[..|bytes|] == bytes;
      EncodeConcat(text, s);
      HashConcat(OFFSET, Encode(text), bytes);
      text := text + s;
    }
  }

  // ── What is hashed ──

  const US: string := "\U{1F}"
  const RS: string := "\U{1E}"

  /** The values of a record with a separator before each. */
  function Separated(fields: seq<string>): string {
    if fields == [] then "" else US + fields[0] + Separated(fields[1..])
  }

  function Field(f: Option<string>): string {
    f.GetOr("")
  }

  function MemberFields(members: seq<MemberRule>): seq<string> {
    if members == [] then []
    else [Field(members[0].noteType), Field(members[0].sourceContext), Field(members[0].contentContains)]
         + MemberFields(members[1..])
  }

  /** What a topic contributes besides its name: only a rules topic has more than its text. */
  function TopicFields(d: TopicDef): seq<string> {
    [Trim(d.description)] + if d.assign == Rules then ["rules"] + MemberFields(d.members) else []
  }

  function TopicRecord(d: TopicDef): string {
    d.name + Separated(TopicFields(d))
  }

  function SkipRecord(r: SkipRule): string {
    "skip" + Separated([Field(r.noteType), Field(r.sourceContext)])
  }

  function TopicRecords(defs: seq<TopicDef>): seq<string> {
    seq(|defs|, i requires 0 <= i < |defs| => TopicRecord(defs[i]))
  }

  function SkipRecords(skip: seq<SkipRule>): seq<string> {
    seq(|skip|, i requires 0 <= i < |skip| => SkipRecord(skip[i]))
  }

  /** Records one after another, each with its end mark. */
  function Ended(records: seq<string>): string {
    if records == [] then "" else records[0] + RS + Ended(records[1..])
  }

  function ByName(): (TopicDef, TopicDef) -> bool {
    (a: TopicDef, b: TopicDef) => Le(a.name, b.name)
  }

  /** Of neighbours with one name, the first. */
  function Dedup(defs: seq<TopicDef>): seq<TopicDef>
    decreases |defs|
  {
    if |defs| < 2 then defs
    else if defs[0].name == defs[1].name then Dedup([defs[0]] + defs[2..])
    else [defs[0]] + Dedup(defs[1..])
  }

  function Tidy(defs: seq<TopicDef>): seq<TopicDef> {
    Dedup(Sort(defs, ByName()))
  }

  /** The definitions that count: the offered and the dormant ones, by name. */
  function Counted(defs: seq<TopicDef>, dormant: seq<TopicDef>): seq<TopicDef> {
    Tidy(Tidy(defs) + dormant)
  }

  function StreamOf(counted: seq<TopicDef>, skip: seq<SkipRule>): string {
    Ended(TopicRecords(counted) + SkipRecords(skip))
  }

  function Stream(defs: seq<TopicDef>, skip: seq<SkipRule>, dormant: seq<TopicDef>): string {
    StreamOf(Counted(defs, dormant), skip)
  }

  function VersionOf(defs: seq<TopicDef>, skip: seq<SkipRule>, dormant: seq<TopicDef>): Version {
    if defs == [] then NoVersion else Version(HashFrom(OFFSET, Encode(Stream(defs, skip, dormant))))
  }

  function TopicsOf(defs: seq<TopicDef>, skip: seq<SkipRule>, dormant: seq<TopicDef>): Topics {
    Topics(Tidy(defs), skip, VersionOf(defs, skip, dormant))
  }

  lemma {:induction false} EndedAppend(records: seq<string>, record: string)
    ensures Ended(records + [record]) == Ended(records) + record + RS
  {
    if records == [] {
      assert [record][1..] == [];
    } else {
      assert (records + [record])[1..] == records[1..] + [record];
      EndedAppend(records[1..], record);
    }
  }

  lemma {:induction false} SeparatedConcat(a: seq<string>, b: seq<string>)
    ensures Separated(a + b) == Separated(a) + Separated(b)
  {
    if a == [] {
      assert a + b == b;
    } else {
      assert (a + b)[1..] == a[1..] + b;
      SeparatedConcat(a[1..], b);
    }
  }

  lemma {:induction false} MembersAppend(members: seq<MemberRule>, r: MemberRule)
    ensures MemberFields(members + [r]) ==
            MemberFields(members) + [Field(r.noteType), Field(r.sourceContext), Field(r.contentContains)]
  {
    if members == [] {
      assert [r][1..] == [];
    } else {
      assert (members + [r])[1..] == members[1..] + [r];
      MembersAppend(members[1..], r);
    }
  }

  method WriteFields(fnv: Fnv, given: seq<Option<string>>)
    requires fnv.Valid()
    modifies fnv
    ensures fnv.Valid() && fnv.text == old(fnv.text) + Separated(Fields(given))
  {
    hide HashFrom, Encode;
    for i := 0 to |given|
      invariant fnv.Valid() && fnv.text == old(fnv.text) + Separated(Fields(given[..i]))
    {
      fnv.Write(US);
      fnv.Write(Field(given[i]));
      assert Fields(given[..i + 1]) == Fields(given[..i]) + [Field(given[i])];
      SeparatedConcat(Fields(given[..i]), [Field(given[i])]);
      assert Separated([Field(given[i])]) == US + Field(given[i]) + "";
    }
    assert given[..|given|] == given;
  }

  function Fields(given: seq<Option<string>>): seq<string> {
    seq(|given|, i requires 0 <= i < |given| => Field(given[i]))
  }

  method WriteMembers(fnv: Fnv, members: seq<MemberRule>)
    requires fnv.Valid()
    modifies fnv
    ensures fnv.Valid() && fnv.text == old(fnv.text) + Separated(MemberFields(members))
  {
    hide HashFrom, Encode;
    for i := 0 to |members|
      invariant fnv.Valid() && fnv.text == old(fnv.text) + Separated(MemberFields(members[..i]))
    {
      var r := members[i];
      var given := [r.noteType, r.sourceContext, r.contentContains];
      WriteFields(fnv, given);
      assert members[..i + 1] == members[..i] + [r];
      MembersAppend(members[..i], r);
      assert Fields(given) == [Field(r.noteType), Field(r.sourceContext), Field(r.contentContains)];
      SeparatedConcat(MemberFields(members[..i]), Fields(given));
    }
    assert members[..|members|] == members;
  }

  method WriteTopic(fnv: Fnv, d: TopicDef)
    requires fnv.Valid()
    modifies fnv
    ensures fnv.Valid() && fnv.text == old(fnv.text) + TopicRecord(d) + RS
  {
    hide HashFrom, Encode, Separated, MemberFields;
    fnv.Write(d.name);
    fnv.Write(US);
    fnv.Write(Trim(d.description));
    if d.assign == Rules {
      fnv.Write(US + "rules");
      WriteMembers(fnv, d.members);
    }
    fnv.Write(RS);
    RecordText(d);
  }

  lemma RecordText(d: TopicDef)
    ensures TopicRecord(d) ==
              d.name + US + Trim(d.description)
              + if d.assign == Rules then (US + "rules") + Separated(MemberFields(d.members)) else ""
  {
    var rest := if d.assign == Rules then ["rules"] + MemberFields(d.members) else [];
    SeparatedConcat([Trim(d.description)], rest);
    if d.assign == Rules {
      SeparatedConcat(["rules"], MemberFields(d.members));
    }
  }

  method WriteSkip(fnv: Fnv, r: SkipRule)
    requires fnv.Valid()
    modifies fnv
    ensures fnv.Valid() && fnv.text == old(fnv.text) + SkipRecord(r) + RS
  {
    hide HashFrom, Encode, Separated;
    var given := [r.noteType, r.sourceContext];
    fnv.Write("skip");
    WriteFields(fnv, given);
    fnv.Write(RS);
    assert Fields(given) == [Field(r.noteType), Field(r.sourceContext)];
  }

  /** `with_dormant`: the version is the hash of the counted definitions and the scope. */
  method WithDormant(defs: seq<TopicDef>, skip: seq<SkipRule>, dormant: seq<TopicDef>) returns (topics: Topics)
    ensures topics == TopicsOf(defs, skip, dormant)
  {
    hide HashFrom, Encode, Tidy, TopicRecord, SkipRecord;
    var offered := Tidy(defs);
    var counted := Tidy(offered + dormant);
    var fnv := new Fnv();
    for i := 0 to |counted|
      invariant fnv.Valid() && fnv.text == Ended(TopicRecords(counted[..i]))
    {
      WriteTopic(fnv, counted[i]);
      assert TopicRecords(counted[..i + 1]) == TopicRecords(counted[..i]) + [TopicRecord(counted[i])];
      EndedAppend(TopicRecords(counted[..i]), TopicRecord(counted[i]));
    }
    assert counted[..|counted|] == counted;
    ghost var topicRecords := TopicRecords(counted);
    assert topicRecords + SkipRecords(skip[..0]) == topicRecords;
    for i := 0 to |skip|
      invariant fnv.Valid() && fnv.text == Ended(topicRecords + SkipRecords(skip[..i]))
    {
      WriteSkip(fnv, skip[i]);
      assert topicRecords + SkipRecords(skip[..i + 1]) == (topicRecords + SkipRecords(skip[..i]))
             + [SkipRecord(skip[i])];
      EndedAppend(topicRecords + SkipRecords(skip[..i]), SkipRecord(skip[i]));
    }
    assert skip[..|skip|] == skip;
    TidyEmpty(defs);
    topics := Topics(offered, skip, if offered == [] then NoVersion else Version(fnv.h));
  }

  lemma TidyEmpty(defs: seq<TopicDef>)
    ensures Tidy(defs) == [] <==> defs == []
  {
    DedupEmpty(Sort(defs, ByName()));
    if defs != [] {
      assert Sort(defs, ByName()) != [];
    }
  }

  lemma {:induction false} DedupEmpty(defs: seq<TopicDef>)
    ensures Dedup(defs) == [] <==> defs == []
    decreases |defs|
  {
    if |defs| >= 2 && defs[0].name == defs[1].name {
      DedupEmpty([defs[0]] + defs[2..]);
    }
  }
}
