/** The parameter namespacer of challonge/api.py (`_verbosify_parameters`):
    every submission parameter `k` is renamed `prefix[k]`, the form-field
    naming the service expects for an object's attributes. */
module Parameters {
  import opened Wrappers

  /** `"%s[%s]" % (prefix, key)`. */
  function Bracketed(prefix: string, key: string): string {
    prefix + "[" + key + "]"
  }

  /** Recovers the key from a namespaced name, or None when the name is not
      of the form `prefix[...]`. */
  function Unbracket(prefix: string, name: string): (r: Option<string>)
    ensures r.Some? ==> Bracketed(prefix, r.value) == name
  {
    if |name| >= |prefix| + 2 && name[..|prefix| + 1] == prefix + "[" && name[|name| - 1] == ']' then
      var key := name[|prefix| + 1..|name| - 1];
      assert name == name[..|prefix| + 1] + key + [name[|name| - 1]];
      Some(key)
    else None
  }

  /** Namespacing can be undone: the key is recovered from its new name. */
  lemma UnbracketBracketed(prefix: string, key: string)
    ensures Unbracket(prefix, Bracketed(prefix, key)) == Some(key)
  {
  }

  /** Under one prefix, distinct keys get distinct names. */
  lemma BracketedInjective(prefix: string, k1: string, k2: string)
    ensures Bracketed(prefix, k1) == Bracketed(prefix, k2) ==> k1 == k2
  {
    UnbracketBracketed(prefix, k1);
    UnbracketBracketed(prefix, k2);
  }

  /** `_verbosify_parameters(params, prefix)`: the same values under the
      namespaced names, and nothing else. */
  function Verbosify<V>(params: map<string, V>, prefix: string): (r: map<string, V>)
    ensures forall k | k in params :: Bracketed(prefix, k) in r && r[Bracketed(prefix, k)] == params[k]
    ensures forall name | name in r :: Unbracket(prefix, name).Some? && Unbracket(prefix, name).value in params
  {
    forall k1, k2 ensures Bracketed(prefix, k1) == Bracketed(prefix, k2) ==> k1 == k2 {
      BracketedInjective(prefix, k1, k2);
    }
    var r := map k | k in params :: Bracketed(prefix, k) := params[k];
    assert forall name | name in r :: Unbracket(prefix, name).Some? && Unbracket(prefix, name).value in params by {
      forall name | name in r ensures Unbracket(prefix, name).Some? && Unbracket(prefix, name).value in params {
        var k :| k in params && name == Bracketed(prefix, k);
        UnbracketBracketed(prefix, k);
      }
    }
    r
  }

  /** Strips the namespace off every name that carries it. */
  function Unverbosify<V>(params: map<string, V>, prefix: string): (r: map<string, V>)
  {
    map name | name in params && Unbracket(prefix, name).Some? :: Unbracket(prefix, name).value := params[name]
  }

  /** Namespacing loses nothing: stripping the namespace gives back the
      original parameters. */
  lemma {:induction false} VerbosifyRoundTrip<V>(params: map<string, V>, prefix: string)
    ensures Unverbosify(Verbosify(params, prefix), prefix) == params
  {
  }

  /** The image of a key set under namespacing. */
  ghost function Names(keys: set<string>, prefix: string): set<string> {
    set k | k in keys :: Bracketed(prefix, k)
  }

  lemma {:induction false} NamesSize(keys: set<string>, prefix: string)
    ensures |Names(keys, prefix)| == |keys|
    decreases keys
  {
    if keys != {} {
      var k :| k in keys;
      var rest := keys - {k};
      NamesSize(rest, prefix);
      assert Names(keys, prefix) == Names(rest, prefix) + {Bracketed(prefix, k)};
      assert Bracketed(prefix, k) !in Names(rest, prefix) by {
        forall k' | k' in rest ensures Bracketed(prefix, k') != Bracketed(prefix, k) {
          BracketedInjective(prefix, k', k);
        }
      }
    }
  }

  /** No two parameters collide under one prefix: the namespaced map has as
      many entries as the original, and its names are exactly the
      namespaced keys. */
  lemma VerbosifySize<V>(params: map<string, V>, prefix: string)
    ensures Verbosify(params, prefix).Keys == Names(params.Keys, prefix)
    ensures |Verbosify(params, prefix)| == |params|
  {
    var r := Verbosify(params, prefix);
    forall name | name in r ensures name in Names(params.Keys, prefix) {
      var k := Unbracket(prefix, name).value;
    }
    NamesSize(params.Keys, prefix);
    assert |r| == |r.Keys|;
  }

  /** Two parameters become two namespaced fields with the same values. */
  lemma VerbosifyTwo<V>(k1: string, v1: V, k2: string, v2: V, prefix: string)
    requires k1 != k2
    ensures Verbosify(map[k1 := v1, k2 := v2], prefix)
            == map[Bracketed(prefix, k1) := v1, Bracketed(prefix, k2) := v2]
  {
  }

  /** The form fields of a tournament named "Foo" at url "bar". */
  lemma TournamentExample()
    ensures Verbosify(map["name" := "Foo", "url" := "bar"], "tournament")
            == map["tournament[name]" := "Foo", "tournament[url]" := "bar"]
  {
    var name, url := Bracketed("tournament", "name"), Bracketed("tournament", "url");
    assert name == "tournament[name]" by {
      assert "tournament" + "[" + "name" + "]" == "tournament[name]";
    }
    assert url == "tournament[url]" by {
      assert "tournament" + "[" + "url" + "]" == "tournament[url]";
    }
    VerbosifyTwo("name", "Foo", "url", "bar", "tournament");
  }
}
