/** Command ids: four bits of generation above twelve bits of tag (nvme.h), with the generation
    advanced at every set-up of the tag's request (core.c). */
module CommandId {
  import opened Wrappers

  function GenMask(gen: bv8): bv8 {
    gen & 0xf
  }

  function Cid(gen: bv8, tag: bv16): bv16 {
    ((GenMask(gen) as bv16) << 12) | tag
  }

  function GenOf(cid: bv16): bv8 {
    ((cid & 0xf000) >> 12) as bv8
  }

  function TagOf(cid: bv16): bv16 {
    cid & 0xfff
  }

  lemma Unpack(gen: bv8, tag: bv16)
    requires tag < 4096
    ensures TagOf(Cid(gen, tag)) == tag
    ensures GenOf(Cid(gen, tag)) == GenMask(gen)
    ensures Cid(gen, tag) & 0xfff == tag && Cid(gen, tag) >> 12 == gen as bv16 & 0xf
  {
    UnpackWide(gen as bv16, tag);
    MaskWidens(gen);
  }

  lemma MaskWidens(gen: bv8)
    ensures GenMask(gen) as bv16 == gen as bv16 & 0xf
  {
  }

  lemma UnpackWide(gen: bv16, tag: bv16)
    requires tag < 4096
    ensures (((gen & 0xf) << 12) | tag) & 0xfff == tag
    ensures ((((gen & 0xf) << 12) | tag) & 0xf000) >> 12 == gen & 0xf
    ensures (((gen & 0xf) << 12) | tag) >> 12 == gen & 0xf
  {
  }

  datatype Tag = Tag(bits: bv16)

  datatype Gen = Gen(bits: bv8)

  /** The generation counter of every tag. */
  type Tags = map<Tag, Gen>

  function Bumped(g: Gen): Gen {
    Gen(g.bits + 1)
  }

  class TagSet {
    var gens: Tags

    /** Some controllers cannot take generation bits; for them the counter rests. */
    method SetupCmd(tag: Tag, skipGen: bool) returns (cid: bv16)
      requires tag in gens && tag.bits < 4096
      modifies this
      ensures gens == if skipGen then old(gens) else old(gens)[tag := Bumped(old(gens)[tag])]
      ensures cid == Cid(gens[tag].bits, tag.bits)
    {
      if !skipGen {
        gens := gens[tag := Bumped(gens[tag])];
      }
      cid := Cid(gens[tag].bits, tag.bits);
    }

    /** The request a completion belongs to, if tag and generation both match. */
    method FindRq(cid: bv16) returns (r: Option<Tag>)
      ensures r == Accept(gens, cid)
    {
      var tag := Tag(TagOf(cid));
      if tag !in gens {
        return None;
      }
      if GenMask(gens[tag].bits) != GenOf(cid) {
        return None;
      }
      return Some(tag);
    }
  }

  function Accept(gens: Tags, cid: bv16): Option<Tag> {
    var tag := Tag(TagOf(cid));
    if tag in gens && GenMask(gens[tag].bits) == GenOf(cid) then Some(tag) else None
  }

  /** An id finds a request if and only if its low twelve bits are a known tag and its high four the
      low bits of that tag's generation; what it finds is that tag. */
  lemma AcceptIff(gens: Tags, cid: bv16)
    ensures var tag := Tag(cid & 0xfff);
            && (Accept(gens, cid).Some? <==> tag in gens && gens[tag].bits as bv16 & 0xf == cid >> 12)
            && (Accept(gens, cid).Some? ==> Accept(gens, cid).value == tag)
  {
    HighBits(cid);
    if Tag(cid & 0xfff) in gens { MaskWidens(gens[Tag(cid & 0xfff)].bits); }
  }

  lemma HighBits(cid: bv16)
    ensures GenOf(cid) as bv16 == cid >> 12
  {
  }

  /** The counters after a run of set-ups, each naming its tag. */
  function AfterSetups(gens: Tags, run: seq<Tag>): Tags
    requires forall t :: t in run ==> t in gens
    ensures AfterSetups(gens, run).Keys == gens.Keys
  {
    if run == [] then gens
    else
      var before := AfterSetups(gens, run[..|run| - 1]);
      var t := run[|run| - 1];
      assert t in run;
      before[t := Bumped(before[t])]
  }

  function Uses(run: seq<Tag>, tag: Tag): nat {
    if run == [] then 0 else Uses(run[..|run| - 1], tag) + if run[|run| - 1] == tag then 1 else 0
  }

  function Advance(gen: bv8, k: nat): bv8 {
    if k == 0 then gen else Advance(gen, k - 1) + 1
  }

  lemma {:induction false} SetupsAdvance(gens: Tags, run: seq<Tag>, tag: Tag)
    requires tag in gens && forall t :: t in run ==> t in gens
    ensures AfterSetups(gens, run)[tag] == Gen(Advance(gens[tag].bits, Uses(run, tag)))
  {
    if run != [] {
      SetupsAdvance(gens, run[..|run| - 1], tag);
      AdvanceOne(gens[tag].bits, Uses(run[..|run| - 1], tag));
    }
  }

  lemma AdvanceOne(gen: bv8, k: nat)
    ensures Advance(gen, k + 1) == Advance(gen, k) + 1
  {
  }

  lemma {:induction false} AdvanceSum(gen: bv8, j: nat, k: nat)
    ensures Advance(gen, j + k) == Advance(Advance(gen, j), k)
  {
    if k > 0 {
      AdvanceSum(gen, j, k - 1);
      assert Advance(gen, j + k) == Advance(gen, j + (k - 1)) + 1;
    }
  }

  lemma OneMore(gen: bv8, k: nat, lit: bv8)
    requires Advance(gen, k) == gen + lit
    ensures Advance(gen, k + 1) == gen + (lit + 1)
  {
    var a := Advance(gen, k);
    assert a + 1 == gen + (lit + 1);
  }

  lemma ThroughEight(gen: bv8)
    ensures && Advance(gen, 1) == gen + 1 && Advance(gen, 2) == gen + 2 && Advance(gen, 3) == gen + 3
            && Advance(gen, 4) == gen + 4 && Advance(gen, 5) == gen + 5 && Advance(gen, 6) == gen + 6
            && Advance(gen, 7) == gen + 7 && Advance(gen, 8) == gen + 8
  {
    hide Advance;
    AdvanceNone(gen);
    OneMore(gen, 0, 0); OneMore(gen, 1, 1); OneMore(gen, 2, 2); OneMore(gen, 3, 3);
    OneMore(gen, 4, 4); OneMore(gen, 5, 5); OneMore(gen, 6, 6); OneMore(gen, 7, 7);
  }

  lemma ThroughSixteen(gen: bv8)
    ensures && Advance(gen, 9) == gen + 9 && Advance(gen, 10) == gen + 10 && Advance(gen, 11) == gen + 11
            && Advance(gen, 12) == gen + 12 && Advance(gen, 13) == gen + 13 && Advance(gen, 14) == gen + 14
            && Advance(gen, 15) == gen + 15 && Advance(gen, 16) == gen + 16
  {
    hide Advance;
    ThroughEight(gen);
    OneMore(gen, 8, 8); OneMore(gen, 9, 9); OneMore(gen, 10, 10); OneMore(gen, 11, 11);
    OneMore(gen, 12, 12); OneMore(gen, 13, 13); OneMore(gen, 14, 14); OneMore(gen, 15, 15);
  }

  lemma AdvanceNone(gen: bv8)
    ensures Advance(gen, 0) == gen + 0
  {
  }

  lemma AdvanceSmall(gen: bv8, k: nat)
    requires k < 16
    ensures GenMask(Advance(gen, k)) == GenMask(gen) <==> k == 0
  {
    hide Advance;
    AdvanceNone(gen);
    ThroughEight(gen);
    ThroughSixteen(gen);
    if k > 0 {
      if k == 1 { DifferentLow(gen, 1); }
      else if k == 2 { DifferentLow(gen, 2); }
      else if k == 3 { DifferentLow(gen, 3); }
      else if k == 4 { DifferentLow(gen, 4); }
      else if k == 5 { DifferentLow(gen, 5); }
      else if k == 6 { DifferentLow(gen, 6); }
      else if k == 7 { DifferentLow(gen, 7); }
      else if k == 8 { DifferentLow(gen, 8); }
      else if k == 9 { DifferentLow(gen, 9); }
      else if k == 10 { DifferentLow(gen, 10); }
      else if k == 11 { DifferentLow(gen, 11); }
      else if k == 12 { DifferentLow(gen, 12); }
      else if k == 13 { DifferentLow(gen, 13); }
      else if k == 14 { DifferentLow(gen, 14); }
      else if k == 15 { DifferentLow(gen, 15); }
    }
  }

  lemma DifferentLow(gen: bv8, lit: bv8)
    requires 0 < lit < 16
    ensures GenMask(gen + lit) != GenMask(gen)
  {
  }

  lemma AdvanceRound(gen: bv8)
    ensures GenMask(Advance(gen, 16)) == GenMask(gen)
  {
    hide Advance;
    ThroughSixteen(gen);
  }

  lemma {:induction false} AdvancePeriod(gen: bv8, k: nat)
    ensures GenMask(Advance(gen, k)) == GenMask(gen) <==> k % 16 == 0
    decreases k
  {
    if k < 16 {
      AdvanceSmall(gen, k);
    } else {
      AdvanceSum(gen, 16, k - 16);
      AdvanceRound(gen);
      AdvancePeriod(Advance(gen, 16), k - 16);
    }
  }

  /** A completion that carries the id built by an earlier set-up of its tag is accepted if and only
      if the tag has been set up a multiple of 16 times since, whatever other tags did. */
  lemma StaleAcceptedIff(gens: Tags, before: seq<Tag>, after: seq<Tag>, tag: Tag)
    requires tag in gens && tag.bits < 4096
    requires (forall t :: t in before ==> t in gens) && (forall t :: t in after ==> t in gens)
    ensures var built := AfterSetups(gens, before);
            Accept(AfterSetups(built, after), Cid(built[tag].bits, tag.bits)) ==
            if Uses(after, tag) % 16 == 0 then Some(tag) else None
  {
    var built := AfterSetups(gens, before);
    SetupsAdvance(built, after, tag);
    AdvancePeriod(built[tag].bits, Uses(after, tag));
    Unpack(built[tag].bits, tag.bits);
  }
}
