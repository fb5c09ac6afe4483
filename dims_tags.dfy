/**
 * The `${width}x${height}` tags of the sizes that the preset tables list, spelled out
 * once so that the table lemmas need not evaluate the decimal conversion again.
 */
module DimsTags {
  import opened Text

  /** A tag is the two decimal spellings joined by 'x'. */
  lemma TagOfSpellings(w: nat, h: nat, sw: string, sh: string)
    requires NatToString(w) == sw && NatToString(h) == sh
    ensures DimsTag(w, h) == sw + "x" + sh
  {
  }

  lemma Spell396()
    ensures NatToString(396) == "396"
  {
  }

  lemma Spell500()
    ensures NatToString(500) == "500"
  {
  }

  lemma Spell630()
    ensures NatToString(630) == "630"
  {
  }

  lemma Spell720()
    ensures NatToString(720) == "720"
  {
  }

  lemma Spell900()
    ensures NatToString(900) == "900"
  {
  }

  lemma Spell1080()
    ensures NatToString(1080) == "1080"
  {
  }

  lemma Spell1200()
    ensures NatToString(1200) == "1200"
  {
  }

  lemma Spell1280()
    ensures NatToString(1280) == "1280"
  {
  }

  lemma Spell1350()
    ensures NatToString(1350) == "1350"
  {
  }

  lemma Spell1584()
    ensures NatToString(1584) == "1584"
  {
  }

  lemma Spell1600()
    ensures NatToString(1600) == "1600"
  {
  }

  lemma Spell1920()
    ensures NatToString(1920) == "1920"
  {
  }

  lemma Tag1080x1080()
    ensures DimsTag(1080, 1080) == "1080x1080"
  {
    Spell1080();
    TagOfSpellings(1080, 1080, "1080", "1080");
  }

  lemma Tag1080x1350()
    ensures DimsTag(1080, 1350) == "1080x1350"
  {
    Spell1080(); Spell1350();
    TagOfSpellings(1080, 1350, "1080", "1350");
  }

  lemma Tag1080x1920()
    ensures DimsTag(1080, 1920) == "1080x1920"
  {
    Spell1080(); Spell1920();
    TagOfSpellings(1080, 1920, "1080", "1920");
  }

  lemma Tag1280x720()
    ensures DimsTag(1280, 720) == "1280x720"
  {
    Spell1280(); Spell720();
    TagOfSpellings(1280, 720, "1280", "720");
  }

  lemma Tag500x500()
    ensures DimsTag(500, 500) == "500x500"
  {
    Spell500();
    TagOfSpellings(500, 500, "500", "500");
  }

  lemma Tag1200x1200()
    ensures DimsTag(1200, 1200) == "1200x1200"
  {
    Spell1200();
    TagOfSpellings(1200, 1200, "1200", "1200");
  }

  lemma Tag1584x396()
    ensures DimsTag(1584, 396) == "1584x396"
  {
    Spell1584(); Spell396();
    TagOfSpellings(1584, 396, "1584", "396");
  }

  lemma Tag1600x900()
    ensures DimsTag(1600, 900) == "1600x900"
  {
    Spell1600(); Spell900();
    TagOfSpellings(1600, 900, "1600", "900");
  }

  lemma Tag1200x630()
    ensures DimsTag(1200, 630) == "1200x630"
  {
    Spell1200(); Spell630();
    TagOfSpellings(1200, 630, "1200", "630");
  }
}
