/** The decoder's passes over the decoded records: selection snapshots, task
    roles and payloads. Each decides exactly its rule. */
module TraceValidator {
  import opened Words
  import opened TraceTypes
  import opened TraceRules
  import opened TraceRing
  import opened TraceWire
  import opened TraceDecoder

  // ---- Selection snapshots ----

  /** Candidates are distinct real tasks linked to the summary. */
  method CheckLinks(s: Record, cs: seq<Record>) returns (ok: bool)
    ensures ok <==> Linked(s, cs)
  {
    var seen: set<u16> := {};
    for i := 0 to |cs|
      invariant seen == set k | 0 <= k < i :: cs[k].task
      invariant Linked(s, cs[..i])
    {
      var c := cs[i];
      if c.task == NO_TASK || c.task == 0 || c.task in seen { return false; }
      if c.related != s.task || c.tick != s.tick { return false; }
      seen := seen + {c.task};
      assert cs[..i + 1] == cs[..i] + [c];
      assert forall k :: 0 <= k < i ==> cs[k].task in seen;
    }
    assert cs[..|cs|] == cs;
    return true;
  }

  method CheckMask(s: Record, cs: seq<Record>) returns (ok: bool)
    requires Linked(s, cs)
    ensures ok <==> MaskAgrees(s, cs)
  {
    if s.value0 >= 32 || s.value0 % 2 != 0 { return false; }
    var ready := set k | 0 <= k < |cs| && StateCode(cs[k]) == READY_CODE :: cs[k].task;
    var expected := set t: u16 | 1 <= t <= MAX_TASK && InMask(s.value0, t);
    assert forall t: u16 :: InMask(s.value0, t) ==> User(t);
    assert forall t: u16 :: t in ready <==> exists k ::
        0 <= k < |cs| && cs[k].task == t && StateCode(cs[k]) == READY_CODE;
    ok := ready == expected;
    if ok {
      forall k | 0 <= k < |cs| && StateCode(cs[k]) == READY_CODE ensures InMask(s.value0, cs[k].task) {
        assert cs[k].task in ready;
      }
      forall t: u16 | User(t) && InMask(s.value0, t)
        ensures exists k :: 0 <= k < |cs| && cs[k].task == t && StateCode(cs[k]) == READY_CODE
      {
        assert t in expected;
      }
    }
  }

  method CheckMarks(s: Record, cs: seq<Record>) returns (ok: bool)
    ensures ok <==> MarksAgree(s, cs)
  {
    hide Eligibles, ExcludedMark, EligibleMark, IsExcluded, EligibleCount;
    if |Eligibles(cs)| != EligibleCount(s) { return false; }
    for i := 0 to |cs|
      invariant forall k :: 0 <= k < i ==> (ExcludedMark(cs[k]) <==> IsExcluded(s, cs[k].task))
    {
      if ExcludedMark(cs[i]) != IsExcluded(s, cs[i].task) { return false; }
    }
    for i := 0 to |cs|
      invariant forall k :: 0 <= k < i ==> (EligibleMark(cs[k]) <==> !IsExcluded(s, cs[k].task))
    {
      if EligibleMark(cs[i]) == IsExcluded(s, cs[i].task) { return false; }
    }
    return true;
  }

  /** The whole rule for one snapshot. */
  method CheckSnapshot(s: Record, cs: seq<Record>) returns (ok: bool)
    ensures ok <==> SnapshotValid(s, cs)
  {
    hide Linked, MaskAgrees, MarksAgree, PurposeAgrees, ChoiceAgrees;
    ok := CheckLinks(s, cs);
    if !ok { return; }
    ok := CheckMask(s, cs);
    if !ok { return; }
    ok := CheckMarks(s, cs);
    if !ok { return; }
    return PurposeAgrees(s, cs) && ChoiceAgrees(s, cs);
  }

  /** Walk the records, taking each summary together with its candidates. */
  method ValidateSelections(rs: seq<Record>) returns (ok: bool)
    ensures ok <==> SelectionsValid(rs)
  {
    hide SnapshotValid;
    var index := 0;
    while index < |rs|
      invariant index <= |rs|
      invariant SelectionsValid(rs) <==> SelectionsValid(rs[index..])
      decreases |rs| - index
    {
      var rest := rs[index..];
      if rs[index].event != TASK_SELECT {
        if rs[index].event == SELECT_CANDIDATE { return false; }
        assert rest[1..] == rs[index + 1..];
        index := index + 1;
      } else {
        var n := rs[index].value2;
        if n > MAX_TASK { return false; }
        if |rs| - index - 1 < n { return false; }
        for k := 0 to n
          invariant forall j :: 1 <= j < k + 1 ==> rest[j].event == SELECT_CANDIDATE
        {
          if rs[index + 1 + k].event != SELECT_CANDIDATE {
            assert rest[1 + k].event != SELECT_CANDIDATE;
            return false;
          }
        }
        var cs := rs[index + 1..index + 1 + n];
        assert cs == rest[1..1 + n];
        assert rest[1 + n..] == rs[index + 1 + n..];
        var agrees := CheckSnapshot(rs[index], cs);
        if !agrees { return false; }
        index := index + 1 + n;
      }
    }
    return true;
  }

  // ---- Roles and payloads ----

  method ValidateRoles(rs: seq<Record>) returns (ok: bool)
    ensures ok <==> forall k :: 0 <= k < |rs| ==> RoleValid(rs[k])
  {
    hide RoleValid;
    for i := 0 to |rs|
      invariant forall k :: 0 <= k < i ==> RoleValid(rs[k])
    {
      if !RoleValid(rs[i]) { return false; }
    }
    return true;
  }

  method ValidatePayloads(rs: seq<Record>) returns (ok: bool)
    ensures ok <==> forall k :: 0 <= k < |rs| ==> PayloadValid(rs[k])
  {
    hide PayloadValid;
    for i := 0 to |rs|
      invariant forall k :: 0 <= k < i ==> PayloadValid(rs[k])
    {
      if !PayloadValid(rs[i]) { return false; }
    }
    return true;
  }

  method FindOverflow(rs: seq<Record>) returns (found: bool)
    ensures found <==> exists k :: 0 <= k < |rs| && rs[k].event == OVERFLOW
  {
    for i := 0 to |rs|
      invariant forall k :: 0 <= k < i ==> rs[k].event != OVERFLOW
    {
      if rs[i].event == OVERFLOW { return true; }
    }
    return false;
  }

  // ---- The decoder ----

  /** What is wrong with a footer after these records, first fault first. */
  function FooterFault(f: Final, rs: seq<Record>): Option<Error> {
    if f.flags != 0 then Some(FooterFlags)
    else if f.emitted != |rs| then Some(FooterEmitted)
    else if f.attempted != f.emitted + f.dropped then Some(FooterAttempted)
    else if f.finalSequence != (f.attempted - 1) % 0x1_0000_0000 then Some(FooterSequence)
    else if f.dropped != 0 then Some(FooterDropped)
    else if rs != [] && f.finalTick < rs[|rs| - 1].tick then Some(FooterTick)
    else None
  }

  /** The footer rules, in the decoder's order. */
  method CheckFooter(f: Final, rs: seq<Record>) returns (fault: Option<Error>)
    ensures fault == FooterFault(f, rs)
    ensures fault.None? <==> FooterAgrees(rs, f)
  {
    if f.flags != 0 { return Some(FooterFlags); }
    if f.emitted != |rs| { return Some(FooterEmitted); }
    if f.attempted != f.emitted as int + f.dropped as int { return Some(FooterAttempted); }
    var expected := if f.attempted == 0 then U32_MAX else f.attempted - 1;
    if f.finalSequence != expected { return Some(FooterSequence); }
    if f.dropped != 0 { return Some(FooterDropped); }
    if rs != [] && f.finalTick < rs[|rs| - 1].tick { return Some(FooterTick); }
    return None;
  }

  predicate StartsWith(data: seq<u8>, prefix: seq<u8>) {
    |prefix| <= |data| && data[..|prefix|] == prefix
  }

  /** Whoever encodes this data, the body starts at the same place and the same
      bytes surround it. */
  lemma TranscriptShape(data: seq<u8>, banner: bool, rs: seq<Record>, f: Final)
    ensures data == Transcript(banner, rs, f) ==>
      var start := if banner then |PREAMBLE| else 0;
      && BodyAt(data, start, rs, f)
      && data[start + |Body(rs, f)|..] == (if banner then TRAILER else [])
      && StartsWith(data, if banner then PREAMBLE else MAGIC)
    ensures var start := if banner then |PREAMBLE| else 0;
      BodyAt(data, start, rs, f) && data[start + |Body(rs, f)|..] == (if banner then TRAILER else [])
      && (banner ==> StartsWith(data, PREAMBLE))
      ==> data == Transcript(banner, rs, f)
  {
    hide PREAMBLE, TRAILER, Body, BodyAt, MAGIC;
    BannerShape(data, rs, f);
    BareShape(data, rs, f);
  }

  lemma BannerShape(data: seq<u8>, rs: seq<Record>, f: Final)
    ensures data == PREAMBLE + Body(rs, f) + TRAILER <==>
            BodyAt(data, |PREAMBLE|, rs, f) && data[|PREAMBLE| + |Body(rs, f)|..] == TRAILER
                && StartsWith(data, PREAMBLE)
  {
    hide PREAMBLE, TRAILER, Body;
    var a, b := |PREAMBLE|, |PREAMBLE| + |Body(rs, f)|;
    if BodyAt(data, a, rs, f) {
      assert data == data[..a] + data[a..b] + data[b..];
    }
  }

  lemma BareShape(data: seq<u8>, rs: seq<Record>, f: Final)
    ensures data == Body(rs, f) <==> BodyAt(data, 0, rs, f) && data[|Body(rs, f)|..] == []
    ensures data == Body(rs, f) ==> StartsWith(data, MAGIC)
  {
    hide Body, MAGIC;
    if BodyAt(data, 0, rs, f) && data[|Body(rs, f)|..] == [] {
      assert data[0..|Body(rs, f)|] == data;
    }
    BodyStarts(rs, f);
  }

  lemma BodyStarts(rs: seq<Record>, f: Final)
    ensures StartsWith(Body(rs, f), MAGIC)
  {
    hide MAGIC, EncodeRecord, EncodeFooter, Covered, Crc.Crc32;
    if rs == [] {
      assert Stream(rs) == [];
    } else {
      assert Body(rs, f)[..48] == RecordFrame(rs[0]);
    }
  }

  /** No data is both a bare trace and one with banner lines. */
  lemma BannerOrBare(data: seq<u8>)
    ensures !(StartsWith(data, PREAMBLE) && StartsWith(data, MAGIC))
  {
    if StartsWith(data, PREAMBLE) { FourthOf(data, PREAMBLE); }
    if StartsWith(data, MAGIC) { FourthOf(data, MAGIC); }
  }

  lemma FourthOf(data: seq<u8>, prefix: seq<u8>)
    requires StartsWith(data, prefix) && |prefix| > 3
    ensures |data| > 3 && data[3] == prefix[3]
  {
  }

  /** The start of the body, as the decoder finds it. */
  ghost predicate Opens(data: seq<u8>, banner: bool) {
    StartsWith(data, if banner then PREAMBLE else MAGIC)
  }

  /** Nothing but the closing banner, if any, follows the body. */
  ghost predicate Closes(data: seq<u8>, start: nat, banner: bool, rs: seq<Record>, f: Final) {
    start + |Body(rs, f)| <= |data| && data[start + |Body(rs, f)|..] == (if banner then TRAILER else [])
  }

  lemma EncodedBody(data: seq<u8>, banner: bool, rs: seq<Record>, f: Final)
    requires Opens(data, banner) && Encodes(data, rs, f)
    ensures var start := if banner then |PREAMBLE| else 0;
      Candidate(data, start, rs, f) && Closes(data, start, banner, rs, f)
  {
    hide PREAMBLE, TRAILER, Body, MAGIC, Meaningful, FooterAgrees, Continuous, Transcript;
    TranscriptShape(data, true, rs, f);
    TranscriptShape(data, false, rs, f);
    BannerOrBare(data);
  }

  lemma ReadIsEncoded(data: seq<u8>, banner: bool, rs: seq<Record>, f: Final)
    requires Opens(data, banner) && |data| <= MAX_INPUT
    requires var start := if banner then |PREAMBLE| else 0;
      Candidate(data, start, rs, f) && Closes(data, start, banner, rs, f)
    requires FooterAgrees(rs, f) && Meaningful(rs)
    ensures Encodes(data, rs, f)
  {
    hide PREAMBLE, TRAILER, Body, BodyAt, MAGIC, Meaningful, FooterAgrees, Continuous, Transcript;
    TranscriptShape(data, banner, rs, f);
  }

  /** The strict decoder: it succeeds exactly on the encodings of acceptable
      traces, with the one trace that the data encodes. */
  method Decode(data: seq<u8>) returns (r: Result<Trace>)
    ensures r.Ok? ==> Encodes(data, r.value.records, r.value.footer) && r.value.raw == Raw(r.value.records)
    ensures forall rs, f :: Encodes(data, rs, f) ==> r.Ok? && r.value.records == rs && r.value.footer == f
  {
    hide PREAMBLE, TRAILER, Body, BodyAt, MAGIC, FooterAgrees, Continuous, Transcript, StartsWith, RoleValid,
         PayloadValid;
    hide SelectionsValid, Raw, TicksAscend, FieldsValid, FooterFault;
    if |data| > MAX_INPUT { return Err(InputTooLong); }
    var banner := StartsWith(data, PREAMBLE);
    if !banner && !StartsWith(data, MAGIC) {
      forall rs, f | Encodes(data, rs, f) ensures false {
        TranscriptShape(data, true, rs, f);
        TranscriptShape(data, false, rs, f);
      }
      return Err(NoSync);
    }
    var start := if banner then |PREAMBLE| else 0;
    assert start <= |data| by { if banner { PrefixFits(data, PREAMBLE); } }
    forall rs, f | Encodes(data, rs, f)
      ensures Candidate(data, start, rs, f) && Closes(data, start, banner, rs, f)
    {
      EncodedBody(data, banner, rs, f);
    }
    var frames := DecodeFrames(data, start, banner);
    if frames.Err? { return Err(frames.error); }
    var records, footer := frames.value.records, frames.value.footer;
    var fault := CheckFooter(footer, records);
    if fault.Some? { return Err(fault.value); }
    if data[frames.value.end..] != (if banner then TRAILER else []) { return Err(TrailingGarbage); }
    var ok := ValidateSelections(records);
    if !ok { return Err(BadSelection); }
    ok := ValidateRoles(records);
    if !ok { return Err(BadRole); }
    ok := ValidatePayloads(records);
    if !ok { return Err(BadPayload); }
    var overflow := FindOverflow(records);
    if overflow { return Err(OverflowRecorded); }
    ReadIsEncoded(data, banner, records, footer);
    return Ok(Trace(records, footer, frames.value.raw));
  }

  lemma PrefixFits(data: seq<u8>, prefix: seq<u8>)
    requires StartsWith(data, prefix)
    ensures |prefix| <= |data|
  {
  }
}
