/** Resource keys (utils.go): the canonical string under which violations
    are deduplicated and looked up in the allowlist. */
module Utils {
  import opened Types

  const KeyPrefix := "policyName: "

  /** FetchResourceKey: the empty string for a nil violation or a nil key,
      otherwise the formatted five identifying fields. */
  function FetchResourceKey(v: ViolationRef): (key: string)
    ensures key == "" <==> v == None || v.value.resourceKey == None
    ensures key != "" ==> |KeyPrefix| <= |key| && key[..|KeyPrefix|] == KeyPrefix
  {
    if v.None? || v.value.resourceKey.None? then ""
    else
      var k := v.value.resourceKey.value;
      var rest := v.value.policyName + ", group: " + k.group + ", kind: " + k.kind
        + ", name: " + k.name + ", version: " + k.version;
      assert (KeyPrefix + rest)[..|KeyPrefix|] == KeyPrefix;
      KeyPrefix + rest
  }

  /** The key of a violation that is known not to be nil. */
  function KeyOf(v: Violation): (key: string)
    ensures key == "" <==> v.resourceKey == None
  {
    FetchResourceKey(Some(v))
  }

  /** The key depends on the policy name and the four key fields only:
      in particular not on the message. */
  lemma KeyIgnoresMessage(a: Violation, b: Violation)
    requires a.policyName == b.policyName && a.resourceKey == b.resourceKey
    ensures KeyOf(a) == KeyOf(b)
  {
  }
}
