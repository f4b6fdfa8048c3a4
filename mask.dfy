/** The dashboard's `maskKey`: the display-safe form of a secret key
    value shown while a row is hidden. */
module Mask {
  import opened Text

  /** A run of `n` asterisks. */
  function Stars(n: nat): string {
    Repeat('*', n)
  }

  /** `maskKey(value)`. An empty value masks to the empty string; a value
      with a dash keeps everything up to and including its last dash and
      ends in exactly 32 asterisks; a dashless value longer than 8 keeps
      its first and last 4 characters around asterisks; any other value
      becomes asterisks only. */
  function MaskKey(value: string): string {
    if value == [] then []
    else
      var lastDash := LastIndexOf(value, '-');
      if lastDash != -1 then value[..lastDash + 1] + Stars(32)
      else if |value| > 8 then value[..4] + Stars(|value| - 8) + value[|value| - 4..]
      else Stars(|value|)
  }

  lemma MaskEmpty()
    ensures MaskKey([]) == []
  {
  }

  /** With its last dash at `i`, a value masks to its prefix through that
      dash followed by 32 asterisks, whatever follows the dash. */
  lemma MaskDashed(value: string, i: nat)
    requires i < |value| && value[i] == '-' && '-' !in value[i + 1..]
    ensures MaskKey(value) == value[..i + 1] + Stars(32)
    ensures |MaskKey(value)| == i + 33
  {
  }

  /** The mask of a dashed value does not depend on what follows its last
      dash: the secret part leaks neither its characters nor its length. */
  lemma MaskHidesSecretAfterDash(prefix: string, secret1: string, secret2: string)
    requires '-' !in secret1 && '-' !in secret2
    ensures MaskKey(prefix + ['-'] + secret1) == MaskKey(prefix + ['-'] + secret2)
  {
    var v1 := prefix + ['-'] + secret1;
    var v2 := prefix + ['-'] + secret2;
    var i := |prefix|;
    assert v1[i + 1..] == secret1 && v2[i + 1..] == secret2;
    assert v1[..i + 1] == prefix + ['-'] == v2[..i + 1];
    MaskDashed(v1, i);
    MaskDashed(v2, i);
  }

  /** A dashless value longer than 8 keeps its length, its first 4 and
      its last 4 characters, and every character between them is `*`. */
  lemma MaskLong(value: string)
    requires '-' !in value && |value| > 8
    ensures |MaskKey(value)| == |value|
    ensures MaskKey(value)[..4] == value[..4]
    ensures MaskKey(value)[|value| - 4..] == value[|value| - 4..]
    ensures forall k :: 4 <= k < |value| - 4 ==> MaskKey(value)[k] == '*'
  {
  }

  /** A nonempty dashless value of at most 8 characters is all asterisks,
      as many as it has characters. */
  lemma MaskShort(value: string)
    requires '-' !in value && 0 < |value| <= 8
    ensures MaskKey(value) == Stars(|value|)
    ensures forall k :: 0 <= k < |MaskKey(value)| ==> MaskKey(value)[k] == '*'
  {
  }

  /** Whatever the value, every character of the mask is an asterisk or
      the character of the value at the same position. */
  lemma MaskRevealsOnlyInPlace(value: string)
    ensures forall k :: 0 <= k < |MaskKey(value)| ==>
      MaskKey(value)[k] == '*' || (k < |value| && MaskKey(value)[k] == value[k])
  {
  }
}
