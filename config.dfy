/** The configuration the guard reads (damage_control.py:185-209): four
    lists, merged from every pattern file in a directory. YAML parsing and
    the directory listing are outside the model; the merge works on the
    already listed files and already parsed documents. */
module Config {
  import opened Wrappers

  /** One entry of `bashToolPatterns`; each key may be missing. */
  datatype Rule = Rule(pattern: Option<string>, reason: Option<string>, ask: Option<bool>, matchAnywhere: Option<bool>)
  {
    /** `item.get("pattern", "")`. */
    function Pattern(): string { pattern.GetOr("") }
    /** `item.get("reason", "Blocked by pattern")`. */
    function Reason(): string { reason.GetOr("Blocked by pattern") }
    /** `item.get("ask", False)`. */
    function Ask(): bool { ask.GetOr(false) }
    /** `item.get("match_anywhere", False)`. */
    function MatchAnywhere(): bool { matchAnywhere.GetOr(false) }
  }

  /** The four lists the handlers consult. */
  datatype Config = Config(bashToolPatterns: seq<Rule>, zeroAccessPaths: seq<string>,
                           readOnlyPaths: seq<string>, noDeletePaths: seq<string>)

  /** `_CONFIG_KEYS`. */
  const ConfigKeys: seq<string> := ["bashToolPatterns", "zeroAccessPaths", "readOnlyPaths", "noDeletePaths"]

  /** A value in a parsed document: a list, or anything else. */
  datatype Value<T> = ListValue(items: seq<T>) | OtherValue

  /** A parsed pattern file (an empty file counts as the empty mapping). */
  type Document<T> = map<string, Value<T>>

  // Listing the files

  /** `xs` without repetitions, each element kept at its first occurrence. */
  function Dedup<P(==)>(xs: seq<P>): seq<P>
  {
    if xs == [] then []
    else
      var kept := Dedup(xs[..|xs| - 1]);
      if xs[|xs| - 1] in kept then kept else kept + [xs[|xs| - 1]]
  }

  predicate NoDuplicates<P(==)>(xs: seq<P>)
  {
    forall i, j :: 0 <= i < j < |xs| ==> xs[i] != xs[j]
  }

  /** Every element is kept, nothing else is added, and nothing twice. */
  lemma {:induction false} DedupProperties<P>(xs: seq<P>)
    ensures NoDuplicates(Dedup(xs))
    ensures forall x :: x in Dedup(xs) <==> x in xs
  {
    if xs != [] {
      var init := xs[..|xs| - 1];
      DedupProperties(init);
      assert xs == init + [xs[|xs| - 1]];
    }
  }

  /** Duplicates removed from a concatenation keep the order of the first
      list: the `*.yaml` files come before the `*.yml` files. */
  lemma {:induction false} DedupKeepsPrefix<P>(xs: seq<P>, ys: seq<P>)
    requires NoDuplicates(xs)
    ensures |Dedup(xs + ys)| >= |xs| && Dedup(xs + ys)[..|xs|] == xs
    decreases |ys|
  {
    if ys == [] {
      assert xs + ys == xs;
      DedupOfDistinct(xs);
    } else {
      var ys' := ys[..|ys| - 1];
      assert (xs + ys)[..|xs + ys| - 1] == xs + ys';
      DedupKeepsPrefix(xs, ys');
    }
  }

  /** A list without repetitions is its own deduplication. */
  lemma {:induction false} DedupOfDistinct<P>(xs: seq<P>)
    requires NoDuplicates(xs)
    ensures Dedup(xs) == xs
  {
    if xs != [] {
      var init := xs[..|xs| - 1];
      DedupOfDistinct(init);
      assert xs[|xs| - 1] !in init by {
        forall i | 0 <= i < |init| ensures init[i] != xs[|xs| - 1] {
          assert init[i] == xs[i];
        }
      }
      assert init + [xs[|xs| - 1]] == xs;
    }
  }

  /** The listing loop of `load_patterns_dir`: the `*.yaml` files, then the
      `*.yml` files, each path taken once, remembered in `seen`. */
  method ListPatternFiles<P(==)>(yamlFiles: seq<P>, ymlFiles: seq<P>) returns (files: seq<P>)
    ensures files == Dedup(yamlFiles + ymlFiles)
  {
    var all := yamlFiles + ymlFiles;
    var seen: set<P> := {};
    files := [];
    for i := 0 to |all|
      invariant files == Dedup(all[..i])
      invariant forall p :: p in seen <==> p in files
    {
      var p := all[i];
      assert all[..i + 1][..i] == all[..i];
      if p !in seen {
        seen := seen + {p};
        files := files + [p];
      }
    }
    assert all[..|all|] == all;
  }

  // Merging the documents

  /** What one document contributes to one key: its list, or nothing. */
  function ListItems<T>(doc: Document<T>, key: string): seq<T>
  {
    if key in doc && doc[key].ListValue? then doc[key].items else []
  }

  /** The merged list of one key: the documents' lists, in document order. */
  function Collect<T>(docs: seq<Document<T>>, key: string): seq<T>
  {
    if docs == [] then []
    else Collect(docs[..|docs| - 1], key) + ListItems(docs[|docs| - 1], key)
  }

  /** Merging is concatenation: the documents of two groups of files
      contribute in order, first group first. */
  lemma {:induction false} CollectAppend<T>(a: seq<Document<T>>, b: seq<Document<T>>, key: string)
    ensures Collect(a + b, key) == Collect(a, key) + Collect(b, key)
    decreases |b|
  {
    if b == [] {
      assert a + b == a;
    } else {
      var b' := b[..|b| - 1];
      assert (a + b)[..|a + b| - 1] == a + b';
      assert (a + b)[|a + b| - 1] == b[|b| - 1];
      CollectAppend(a, b', key);
    }
  }

  /** A document that has no list under `key` (the key is missing, or its
      value is a string, a mapping, a number or null) leaves that key's
      merged list unchanged wherever it appears. */
  lemma NonListIgnored<T>(before: seq<Document<T>>, doc: Document<T>, after: seq<Document<T>>, key: string)
    requires key !in doc || !doc[key].ListValue?
    ensures Collect(before + [doc] + after, key) == Collect(before + after, key)
  {
    CollectAppend(before + [doc], after, key);
    CollectAppend(before, [doc], key);
    CollectAppend(before, after, key);
    assert [doc][..0] == [];
  }

  /** The merge of `load_patterns_dir`: exactly the four configuration
      keys, each mapped to its merged list. */
  method MergeDocuments<T>(docs: seq<Document<T>>) returns (merged: map<string, seq<T>>)
    ensures merged.Keys == set k | k in ConfigKeys
    ensures forall k :: k in ConfigKeys ==> merged[k] == Collect(docs, k)
  {
    merged := map k | k in ConfigKeys :: [];
    for i := 0 to |docs|
      invariant merged.Keys == set k | k in ConfigKeys
      invariant forall k :: k in ConfigKeys ==> merged[k] == Collect(docs[..i], k)
    {
      var data := docs[i];
      MergeOne(docs, i);
      merged := MergeInto(merged, data, docs[..i]);
    }
    assert docs[..|docs|] == docs;
  }

  /** The documents up to and including the `i`-th add its lists at the end. */
  lemma MergeOne<T>(docs: seq<Document<T>>, i: int)
    requires 0 <= i < |docs|
    ensures forall k :: Collect(docs[..i + 1], k) == Collect(docs[..i], k) + ListItems(docs[i], k)
  {
    assert docs[..i + 1][..i] == docs[..i];
  }

  /** The four configuration keys are distinct. */
  lemma ConfigKeysDistinct()
    ensures forall i, j :: 0 <= i < j < |ConfigKeys| ==> ConfigKeys[i] != ConfigKeys[j]
  {
    assert ConfigKeys[0][0] == 'b' && ConfigKeys[1][0] == 'z' && ConfigKeys[2][0] == 'r' && ConfigKeys[3][0] == 'n';
  }

  /** The inner loop of the merge: for each configuration key, extend its
      list with the document's list, if the document has one there. */
  method MergeInto<T>(merged0: map<string, seq<T>>, data: Document<T>, earlier: seq<Document<T>>)
    returns (merged: map<string, seq<T>>)
    requires merged0.Keys == set k | k in ConfigKeys
    requires forall k :: k in ConfigKeys ==> merged0[k] == Collect(earlier, k)
    ensures merged.Keys == set k | k in ConfigKeys
    ensures forall k :: k in ConfigKeys ==> merged[k] == Collect(earlier, k) + ListItems(data, k)
  {
    ConfigKeysDistinct();
    merged := merged0;
    for j := 0 to |ConfigKeys|
      invariant merged.Keys == merged0.Keys
      invariant forall m :: 0 <= m < |ConfigKeys| ==>
                  merged[ConfigKeys[m]] == merged0[ConfigKeys[m]] + (if m < j then ListItems(data, ConfigKeys[m]) else [])
    {
      var key := ConfigKeys[j];
      ghost var before := merged;
      if key in data && data[key].ListValue? {
        merged := merged[key := merged[key] + data[key].items];
      }
      forall m | 0 <= m < |ConfigKeys| && m != j
        ensures merged[ConfigKeys[m]] == before[ConfigKeys[m]]
      {
        assert ConfigKeys[m] != key;
      }
    }
    forall k | k in ConfigKeys
      ensures merged[k] == Collect(earlier, k) + ListItems(data, k)
    {
      var m :| 0 <= m < |ConfigKeys| && ConfigKeys[m] == k;
    }
  }

  /** The parsed documents of the listed files, in listing order. */
  function ParseAll<P, T>(files: seq<P>, parse: P -> Document<T>): (docs: seq<Document<T>>)
    ensures |docs| == |files| && forall i :: 0 <= i < |files| ==> docs[i] == parse(files[i])
  {
    if files == [] then [] else [parse(files[0])] + ParseAll(files[1..], parse)
  }

  /** `load_patterns_dir` over a listing and a parser: list each file once,
      parse each, and merge. */
  method LoadPatternsDir<P(==), T>(yamlFiles: seq<P>, ymlFiles: seq<P>, parse: P -> Document<T>)
    returns (merged: map<string, seq<T>>)
    ensures merged.Keys == set k | k in ConfigKeys
    ensures forall k :: k in ConfigKeys ==> merged[k] == Collect(ParseAll(Dedup(yamlFiles + ymlFiles), parse), k)
  {
    var files := ListPatternFiles(yamlFiles, ymlFiles);
    merged := MergeDocuments(ParseAll(files, parse));
  }
}
