/** Substring search, as `str::find`, `strip_prefix` and `strip_suffix` do it. */
module Text {
  import opened Wrappers

  predicate OccursAt(text: string, id: string, i: nat) {
    i + |id| <= |text| && text[i..i + |id|] == id
  }

  ghost predicate Occurs(text: string, id: string) {
    exists i: nat :: OccursAt(text, id, i)
  }

  /** `str::find`, from a position on. */
  function Find(text: string, id: string, from: nat := 0): (r: Option<nat>)
    requires from <= |text| + 1
    ensures r.Some? ==> from <= r.value && r.value + |id| <= |text|
    decreases |text| + 1 - from
  {
    if from == |text| + 1 then None
    else if OccursAt(text, id, from) then Some(from)
    else Find(text, id, from + 1)
  }

  lemma {:induction false} FindIsFirst(text: string, id: string, from: nat)
    requires from <= |text| + 1
    ensures var r := Find(text, id, from);
            && (r.Some? ==> OccursAt(text, id, r.value))
            && (forall i: nat :: from <= i && OccursAt(text, id, i) ==> r.Some? && r.value <= i)
    decreases |text| + 1 - from
  {
    if from <= |text| && !OccursAt(text, id, from) {
      FindIsFirst(text, id, from + 1);
    }
  }

  function StripPrefix(text: string, prefix: string): Option<string> {
    if prefix <= text then Some(text[|prefix|..]) else None
  }

  predicate EndsWith(text: string, suffix: string) {
    |suffix| <= |text| && text[|text| - |suffix|..] == suffix
  }

  lemma OccursReadsFirst(text: string, id: string, i: nat)
    requires id != ""
    ensures OccursAt(text, id, i) ==> i < |text| && text[i] == id[0]
  {
    if OccursAt(text, id, i) {
      assert text[i..i + |id|][0] == text[i];
    }
  }

  lemma EndsWithLast(text: string, suffix: string)
    requires suffix != ""
    ensures EndsWith(text, suffix) ==> text[|text| - 1] == suffix[|suffix| - 1]
  {
    if EndsWith(text, suffix) {
      assert text[|text| - |suffix|..][|suffix| - 1] == text[|text| - 1];
    }
  }

  /** `strip_suffix`. */
  function StripSuffix(text: string, suffix: string): Option<string> {
    if EndsWith(text, suffix) then Some(text[..|text| - |suffix|]) else None
  }

  lemma StripSuffixRejoins(text: string, suffix: string)
    ensures StripSuffix(text, suffix).Some? ==> text == StripSuffix(text, suffix).value + suffix
  {}

  /** A prefix is stripped exactly off the texts that put it before what is left. */
  lemma StripPrefixIs(text: string, prefix: string, rest: string)
    ensures StripPrefix(text, prefix) == Some(rest) <==> text == prefix + rest
    ensures StripSuffix(text, prefix) == Some(rest) <==> text == rest + prefix
  {
    if text == rest + prefix {
      assert text[|text| - |prefix|..] == prefix && text[..|text| - |prefix|] == rest;
    }
  }

  /** `split(c).next()`: what comes before the first `c`. */
  function Before(text: string, c: char): (r: string)
    ensures |r| <= |text| && r == text[..|r|] && c !in r
    ensures |r| < |text| ==> text[|r|] == c
  {
    if text == "" || text[0] == c then ""
    else [text[0]] + Before(text[1..], c)
  }
}
