/** The companion's long-term memory profile: persona, facts, episodes and
    skills, with episodes distilled into facts and an optional content
    signature. */
module Memory {
  import opened Base

  datatype Persona = Persona(tone: string, risk: string, humor: string, voice: string)

  datatype Fact = Fact(k: string, v: string, t: string)

  datatype Episode = Episode(title: string, summary: string, tags: seq<string>, ts: string)

  datatype Skill = Skill(name: string, level: nat, notes: string)

  /** The profile without its signature: what the signature hashes. */
  datatype Content = Content(version: string, persona: Persona, playerPrefs: map<string, real>,
                             facts: seq<Fact>, episodes: seq<Episode>, skills: seq<Skill>)

  /** The fact an episode becomes: its title keyed under "ep:", its summary
      and its timestamp. */
  function ToFact(e: Episode): Fact {
    Fact("ep:" + e.title, e.summary, e.ts)
  }

  /** The facts distilled from `eps`: one for each of the first ten, in
      order. */
  function Distilled(eps: seq<Episode>): (r: seq<Fact>)
    ensures |r| == Min(10, |eps|)
    ensures forall i :: 0 <= i < |r| ==> r[i] == ToFact(eps[i])
  {
    var n := if |eps| < 10 then |eps| else 10;
    seq(n, i requires 0 <= i < n => ToFact(eps[i]))
  }

  class CompanionProfile {
    var version: string
    var persona: Persona
    var playerPrefs: map<string, real>
    var facts: seq<Fact>
    var episodes: seq<Episode>
    var skills: seq<Skill>
    var signature: Option<string>

    function Unsigned(): Content
      reads this
    {
      Content(version, persona, playerPrefs, facts, episodes, skills)
    }

    /** `new_default`: version 1.0.0, a dry, medium-risk, lightly humorous
        persona with voice v01, the default preferences, nothing remembered
        and no signature. */
    constructor NewDefault()
      ensures version == "1.0.0" && persona == Persona("dry", "medium", "light", "v01")
      ensures playerPrefs == map["stealth_bias" := 0.5, "loot_greed" := 0.2]
      ensures facts == [] && episodes == [] && skills == [] && signature == None
    {
      version := "1.0.0";
      persona := Persona("dry", "medium", "light", "v01");
      playerPrefs := map["stealth_bias" := 0.5, "loot_greed" := 0.2];
      facts, episodes, skills := [], [], [];
      signature := None;
    }

    /** `distill`: every episode is drained, the first ten becoming facts
        appended after the existing ones. */
    method Distill()
      modifies this
      ensures facts == old(facts) + Distilled(old(episodes)) && episodes == []
      ensures version == old(version) && persona == old(persona) && skills == old(skills)
      ensures signature == old(signature) && playerPrefs == old(playerPrefs)
    {
      var drained := episodes;
      episodes := [];
      var newFacts: seq<Fact> := [];
      var i := 0;
      while i < |drained| && i < 10
        invariant i <= |drained| && i <= 10
        invariant newFacts == Distilled(drained[..i])
      {
        assert drained[..i + 1][..i] == drained[..i];
        newFacts := newFacts + [ToFact(drained[i])];
        i := i + 1;
      }
      assert Distilled(drained[..i]) == Distilled(drained);
      facts := facts + newFacts;
    }

    /** `sign`, with the hash of the unsigned content given as `hash`. */
    method Sign(hash: Content -> string)
      modifies this
      ensures signature == Some(hash(Unsigned())) && Unsigned() == old(Unsigned())
    {
      signature := Some(hash(Unsigned()));
    }

    /** `verify`, with the same hash: false with no signature, otherwise
        whether the signature is the hash of the unsigned content. */
    function Verify(hash: Content -> string): (ok: bool)
      reads this
      ensures signature.None? ==> !ok
      ensures ok <==> signature == Some(hash(Unsigned()))
    {
      match signature
      case None => false
      case Some(sig) => sig == hash(Unsigned())
    }
  }

  /** Existing facts stay as an untouched prefix, and episodes past the
      tenth are lost. */
  lemma DistillLoses(old_facts: seq<Fact>, eps: seq<Episode>)
    ensures (old_facts + Distilled(eps))[..|old_facts|] == old_facts
    ensures |old_facts + Distilled(eps)| - |old_facts| < |eps| <==> |eps| > 10
  {
  }
}
