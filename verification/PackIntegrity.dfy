/**
 The bytes a pack's integrity hash covers: version 1 runs two files together, version 2 frames three named
 parts, each with its length or a mark that it is absent.
 */
module PackIntegrity {
  import opened Wrappers
  import Texts

  /** `SKILL.md`, `manifest.yaml` and `engrams.yaml` in ASCII. */
  const SKILL: Bytes := [83, 75, 73, 76, 76, 46, 109, 100]
  const MANIFEST: Bytes := [109, 97, 110, 105, 102, 101, 115, 116, 46, 121, 97, 109, 108]
  const ENGRAMS: Bytes := [101, 110, 103, 114, 97, 109, 115, 46, 121, 97, 109, 108]

  const V2_PARTS: seq<Bytes> := [SKILL, MANIFEST, ENGRAMS]

  const DASH: Byte := 45

  // ----- decimal numbers

  predicate Digits(d: Bytes) {
    forall i :: 0 <= i < |d| ==> 48 <= d[i] <= 57
  }

  /** A number in decimal, in ASCII. */
  function Written(n: nat): (d: Bytes)
    ensures d != [] && Digits(d)
  {
    var s := Texts.Decimal(n);
    seq(|s|, i requires 0 <= i < |s| => assert Texts.IsDigit(s[i]); s[i] as int)
  }

  function Number(d: Bytes): nat
    requires Digits(d)
  {
    Texts.Value(seq(|d|, i requires 0 <= i < |d| => d[i] as char))
  }

  lemma WrittenReadsBack(n: nat)
    ensures Number(Written(n)) == n
  {
    var d := Written(n);
    Texts.DecimalReadsBack(n);
    assert seq(|d|, i requires 0 <= i < |d| => d[i] as char) == Texts.Decimal(n);
  }

  // ----- the framing

  function Frame(name: Bytes, part: Option<Bytes>): Bytes {
    match part
    case Some(bytes) => name + [0] + Written(|bytes|) + [0] + bytes
    case None => name + [0, DASH, 0]
  }

  function Part(parts: map<Bytes, Bytes>, name: Bytes): Option<Bytes> {
    if name in parts then Some(parts[name]) else None
  }

  /** The frames of the first n names. */
  function PreImage(parts: map<Bytes, Bytes>, n: nat): Bytes
    requires n <= |V2_PARTS|
  {
    if n == 0 then [] else PreImage(parts, n - 1) + Frame(V2_PARTS[n - 1], Part(parts, V2_PARTS[n - 1]))
  }

  // ----- a reader of frames

  /** Everything up to the first zero byte, and what follows it. */
  function UpToZero(b: Bytes): (r: Option<(Bytes, Bytes)>)
    ensures r.Some? ==> b == r.value.0 + [0] + r.value.1 && 0 !in r.value.0
  {
    if b == [] then None
    else if b[0] == 0 then
      assert b == [] + [0] + b[1..];
      Some(([], b[1..]))
    else
      match UpToZero(b[1..])
      case None => None
      case Some((head, rest)) =>
        assert b == [b[0]] + b[1..] == [b[0]] + head + [0] + rest;
        Some(([b[0]] + head, rest))
  }

  lemma {:induction false} UpToZeroFinds(head: Bytes, rest: Bytes)
    requires 0 !in head
    ensures UpToZero(head + [0] + rest) == Some((head, rest))
  {
    if head == [] {
      assert (head + [0] + rest)[1..] == rest;
    } else {
      UpToZeroFinds(head[1..], rest);
      assert (head + [0] + rest)[1..] == head[1..] + [0] + rest;
      assert head[0] in head && [head[0]] + head[1..] == head;
    }
  }

  /** The part of a frame of that name at the start of b, and what follows the frame. */
  function ReadFrame(name: Bytes, b: Bytes): Option<(Option<Bytes>, Bytes)> {
    if !(name + [0] <= b) then None
    else
      match UpToZero(b[|name| + 1..])
      case None => None
      case Some((field, rest)) =>
        if field == [DASH] then Some((None, rest))
        else if Digits(field) && Written(Number(field)) == field && Number(field) <= |rest| then
          Some((Some(rest[..Number(field)]), rest[Number(field)..]))
        else None
  }

  lemma NoZero(n: nat)
    ensures 0 !in Written(n) && Written(n) != [DASH]
  {
    var d := Written(n);
    assert 48 <= d[0] && forall i :: 0 <= i < |d| ==> 48 <= d[i];
  }

  /** A frame at the start of a text reads back, whatever follows it. */
  lemma FrameReadsBack(name: Bytes, part: Option<Bytes>, rest: Bytes)
    ensures ReadFrame(name, Frame(name, part) + rest) == Some((part, rest))
  {
    hide UpToZero, Written, Number;
    var b := Frame(name, part) + rest;
    match part
    case Some(bytes) =>
      var n := |bytes|;
      NoZero(n);
      WrittenReadsBack(n);
      assert b == name + [0] + (Written(n) + [0] + (bytes + rest));
      assert b[|name| + 1..] == Written(n) + [0] + (bytes + rest);
      UpToZeroFinds(Written(n), bytes + rest);
      assert (bytes + rest)[..n] == bytes && (bytes + rest)[n..] == rest;
    case None =>
      assert b == name + [0] + ([DASH] + [0] + rest);
      assert b[|name| + 1..] == [DASH] + [0] + rest;
      UpToZeroFinds([DASH], rest);
  }

  /** What reads as a frame is that frame. */
  lemma ReadIsFrame(name: Bytes, b: Bytes)
    requires ReadFrame(name, b).Some?
    ensures b == Frame(name, ReadFrame(name, b).value.0) + ReadFrame(name, b).value.1
  {
    var (field, rest) := UpToZero(b[|name| + 1..]).value;
    assert b == name + [0] + b[|name| + 1..];
    assert b == name + [0] + field + [0] + rest;
    if field == [DASH] {
      assert b == name + [0, DASH, 0] + rest;
    } else {
      assert rest == rest[..Number(field)] + rest[Number(field)..];
    }
  }

  /** The three parts a pre-image holds. */
  function Decode(b: Bytes): Option<seq<Option<Bytes>>> {
    match ReadFrame(SKILL, b)
    case None => None
    case Some((skill, afterSkill)) =>
      match ReadFrame(MANIFEST, afterSkill)
      case None => None
      case Some((manifest, afterManifest)) =>
        match ReadFrame(ENGRAMS, afterManifest)
        case None => None
        case Some((engrams, rest)) => if rest == [] then Some([skill, manifest, engrams]) else None
  }

  function PartsOf(parts: map<Bytes, Bytes>): seq<Option<Bytes>> {
    [Part(parts, SKILL), Part(parts, MANIFEST), Part(parts, ENGRAMS)]
  }

  lemma PreImageIs(parts: map<Bytes, Bytes>)
    ensures PreImage(parts, 3) == Frame(SKILL, Part(parts, SKILL)) + (Frame(MANIFEST, Part(parts, MANIFEST)) +
      (Frame(ENGRAMS, Part(parts, ENGRAMS)) + []))
  {
    hide Frame;
    assert PreImage(parts, 0) == [];
    assert PreImage(parts, 1) == [] + Frame(SKILL, Part(parts, SKILL));
    assert PreImage(parts, 2) == PreImage(parts, 1) + Frame(MANIFEST, Part(parts, MANIFEST));
    assert PreImage(parts, 3) == PreImage(parts, 2) + Frame(ENGRAMS, Part(parts, ENGRAMS));
  }

  /** Decoding undoes the framing. */
  lemma DecodeUndoes(parts: map<Bytes, Bytes>)
    ensures Decode(PreImage(parts, 3)) == Some(PartsOf(parts))
  {
    hide Frame, ReadFrame;
    var engrams := Frame(ENGRAMS, Part(parts, ENGRAMS)) + [];
    var manifest := Frame(MANIFEST, Part(parts, MANIFEST)) + engrams;
    PreImageIs(parts);
    FrameReadsBack(SKILL, Part(parts, SKILL), manifest);
    FrameReadsBack(MANIFEST, Part(parts, MANIFEST), engrams);
    FrameReadsBack(ENGRAMS, Part(parts, ENGRAMS), []);
  }

  /** Only pre-images decode: a byte string that decodes is the pre-image of any pack with those parts. */
  lemma OnlyPreImagesDecode(b: Bytes, parts: map<Bytes, Bytes>)
    ensures Decode(b) == Some(PartsOf(parts)) <==> b == PreImage(parts, 3)
  {
    hide Frame, ReadFrame;
    DecodeUndoes(parts);
    if Decode(b) == Some(PartsOf(parts)) {
      var afterSkill := ReadFrame(SKILL, b).value.1;
      var afterManifest := ReadFrame(MANIFEST, afterSkill).value.1;
      ReadIsFrame(SKILL, b);
      ReadIsFrame(MANIFEST, afterSkill);
      ReadIsFrame(ENGRAMS, afterManifest);
      PreImageIs(parts);
    }
  }

  /** Two packs have one pre-image exactly when they have the same parts, absent ones included. */
  lemma PreImageInjective(p: map<Bytes, Bytes>, q: map<Bytes, Bytes>)
    ensures PreImage(p, 3) == PreImage(q, 3) <==> PartsOf(p) == PartsOf(q)
  {
    DecodeUndoes(p);
    DecodeUndoes(q);
    OnlyPreImagesDecode(PreImage(p, 3), q);
  }

  // ----- the hashes

  type Sha = Bytes -> string

  ghost predicate Injective(sha: Sha) {
    forall a, b :: sha(a) == sha(b) ==> a == b
  }

  /** A running SHA-256: what it has been fed. */
  class Hasher {
    var fed: Bytes

    constructor ()
      ensures fed == []
    {
      fed := [];
    }

    method Update(more: Bytes)
      modifies this
      ensures fed == old(fed) + more
    {
      fed := fed + more;
    }
  }

  function V2Digest(sha: Sha, parts: map<Bytes, Bytes>): string {
    "sha256:v2:" + sha(PreImage(parts, 3))
  }

  lemma FrameInSteps(name: Bytes, bytes: Bytes, b: Bytes)
    ensures b + (name + [0] + Written(|bytes|) + [0]) + bytes == b + Frame(name, Some(bytes))
  {
  }

  lemma AbsentFrame(name: Bytes)
    ensures Frame(name, None) == name + [0, DASH, 0]
  {
  }

  /** `pack_integrity_v2` of build.py. */
  method PackIntegrityV2(sha: Sha, parts: map<Bytes, Bytes>) returns (digest: string)
    ensures digest == V2Digest(sha, parts)
  {
    hide Frame;
    var h := new Hasher();
    for n := 0 to |V2_PARTS|
      invariant h.fed == PreImage(parts, n)
    {
      var name := V2_PARTS[n];
      if name in parts {
        FrameInSteps(name, parts[name], h.fed);
        h.Update(name + [0] + Written(|parts[name]|) + [0]);
        h.Update(parts[name]);
      } else {
        AbsentFrame(name);
        h.Update(name + [0, DASH, 0]);
      }
    }
    digest := "sha256:v2:" + sha(h.fed);
  }

  lemma WholeFrame(name: Bytes, bytes: Bytes)
    ensures Frame(name, Some(bytes)) == name + [0] + Written(|bytes|) + [0] + bytes
  {
  }

  /** `pack_hash_v2` of verify.py, over the files of a pack. */
  method PackHashV2(sha: Sha, files: map<Bytes, Bytes>) returns (digest: string)
    ensures digest == V2Digest(sha, files)
  {
    hide Frame;
    var h := new Hasher();
    for n := 0 to |V2_PARTS|
      invariant h.fed == PreImage(files, n)
    {
      var name := V2_PARTS[n];
      if name in files {
        WholeFrame(name, files[name]);
        h.Update(name + [0] + Written(|files[name]|) + [0] + files[name]);
      } else {
        AbsentFrame(name);
        h.Update(name + [0, DASH, 0]);
      }
    }
    digest := "sha256:v2:" + sha(h.fed);
  }

  /** `pack_integrity` of build.py: version 1, where an absent file counts as an empty one. */
  function V1Digest(sha: Sha, skill: Bytes, engrams: Bytes): string {
    "sha256:" + sha(skill + engrams)
  }

  predicate IsShift(skill: Bytes, engrams: Bytes, skill': Bytes, engrams': Bytes, n: int) {
    0 <= n <= |skill| && skill' == skill[..|skill| - n] && engrams' == skill[|skill| - n..] + engrams
  }

  /** The shift `write_pack` can make after hashing: the last n bytes of SKILL.md go to the front of engrams.yaml. */
  method ShiftBoundary(skill: Bytes, engrams: Bytes, n: nat) returns (skill': Bytes, engrams': Bytes)
    requires n <= |skill|
    ensures IsShift(skill, engrams, skill', engrams', n)
  {
    engrams' := skill[|skill| - n..] + engrams;
    skill' := skill[..|skill| - n];
  }

  lemma SamePrefix(p: string, a: string, b: string)
    ensures p + a == p + b <==> a == b
  {
    if p + a == p + b {
      assert a == (p + a)[|p|..] == (p + b)[|p|..] == b;
    }
  }

  /** Version 1 misses exactly the shifts: two packs have one digest exactly when one is a shift of the other. */
  lemma V1MissesExactlyShifts(sha: Sha, skill: Bytes, engrams: Bytes, skill': Bytes, engrams': Bytes)
    requires Injective(sha) && |skill| >= |skill'|
    ensures V1Digest(sha, skill, engrams) == V1Digest(sha, skill', engrams') <==>
      exists n :: IsShift(skill, engrams, skill', engrams', n)
  {
    var n := |skill| - |skill'|;
    SamePrefix("sha256:", sha(skill + engrams), sha(skill' + engrams'));
    if skill + engrams == skill' + engrams' {
      assert skill' == (skill' + engrams')[..|skill'|] == (skill + engrams)[..|skill'|] == skill[..|skill'|];
      assert engrams' == (skill' + engrams')[|skill'|..] == (skill + engrams)[|skill'|..] ==
        skill[|skill'|..] + engrams;
      assert IsShift(skill, engrams, skill', engrams', n);
    }
    if m :| IsShift(skill, engrams, skill', engrams', m) {
      assert skill == skill[..|skill| - m] + skill[|skill| - m..];
      assert skill' + engrams' == skill + engrams;
    }
  }

  /** Version 2 tells any two packs apart whose parts differ. */
  lemma V2TellsApart(sha: Sha, p: map<Bytes, Bytes>, q: map<Bytes, Bytes>)
    requires Injective(sha)
    ensures V2Digest(sha, p) == V2Digest(sha, q) <==> PartsOf(p) == PartsOf(q)
  {
    SamePrefix("sha256:v2:", sha(PreImage(p, 3)), sha(PreImage(q, 3)));
    PreImageInjective(p, q);
  }

  /** A shift of one byte or more leaves the version 1 digest as it was and changes the version 2 digest. */
  lemma ShiftShowsInV2Only(sha: Sha, skill: Bytes, engrams: Bytes, skill': Bytes, engrams': Bytes, n: nat)
    requires Injective(sha) && n > 0 && IsShift(skill, engrams, skill', engrams', n)
    ensures V1Digest(sha, skill', engrams') == V1Digest(sha, skill, engrams)
    ensures V2Digest(sha, map[SKILL := skill', ENGRAMS := engrams']) !=
      V2Digest(sha, map[SKILL := skill, ENGRAMS := engrams])
  {
    V1MissesExactlyShifts(sha, skill, engrams, skill', engrams');
    V2TellsApart(sha, map[SKILL := skill', ENGRAMS := engrams'], map[SKILL := skill, ENGRAMS := engrams]);
    assert SKILL != ENGRAMS;
    assert |skill'| < |skill|;
  }

  /** An absent part is not an empty one. */
  lemma AbsentIsNotEmpty(sha: Sha, parts: map<Bytes, Bytes>, name: Bytes)
    requires Injective(sha) && name in V2_PARTS && name !in parts
    ensures V2Digest(sha, parts[name := []]) != V2Digest(sha, parts)
  {
    V2TellsApart(sha, parts[name := []], parts);
    assert Part(parts[name := []], name) == Some([]) && Part(parts, name) == None;
  }
}
