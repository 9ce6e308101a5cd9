/** `get_only_key`: the value stored under the single key of a parsed XML
    document, failing its assertion for anything else. */
module XmlUtils {
  import opened Wrappers

  /** Python's `AssertionError`. */
  datatype AssertionError = AssertionError

  lemma SingletonKey<K, V>(d: map<K, V>, k: K)
    requires |d| == 1 && k in d
    ensures d.Keys == {k}
  {
    assert |d.Keys - {k}| == |d.Keys| - 1 == 0;
    assert d.Keys - {k} == {};
  }

  /** `get_only_key(d)`, with `None` for Python's `None`: succeeds exactly on a
      dict with one key, and then returns that key's value untouched. */
  function GetOnlyKey<K, V>(d: Option<map<K, V>>): (r: Result<V, AssertionError>)
    ensures r.Success? <==> d.Some? && |d.value| == 1
    ensures r.Success? ==> forall k | k in d.value :: d.value[k] == r.value
  {
    if d.None? || |d.value| != 1 then Failure(AssertionError)
    else
      var k :| k in d.value;
      SingletonKey(d.value, k);
      Success(d.value[k])
  }

  /** The cases of backend/server/xml_utils_test.py: the one value is returned,
      a nested dict is returned as it is, two keys and `None` fail. */
  lemma GetOnlyKeyCases()
    ensures GetOnlyKey(Some(map["foo" := "bar"])) == Success("bar")
    ensures GetOnlyKey(Some(map["foo" := map["foo" := 1]])) == Success(map["foo" := 1])
    ensures GetOnlyKey(Some(map["foo" := "bar", "baz" := "quux"])).Failure?
    ensures GetOnlyKey<string, string>(None).Failure?
  {
    assert "foo" in map["foo" := "bar"];
    assert "foo" in map["foo" := map["foo" := 1]];
    assert map["foo" := "bar", "baz" := "quux"].Keys == {"foo", "baz"};
  }

  /** For any single-entry dict the value under its key comes back. */
  lemma GetOnlyKeySingleton<K, V>(k: K, v: V)
    ensures GetOnlyKey(Some(map[k := v])) == Success(v)
  {
    assert k in map[k := v];
  }
}
