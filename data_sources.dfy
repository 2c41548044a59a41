/** `extractDataSources`: one entry per distinct raw `source` string among a
    document's requirements, in first-occurrence order, named after the URL's host
    when the source parses as a URL and after the raw string otherwise. */
module DataSources {
  import opened Optional
  import opened Models

  datatype DataSource = DataSource(name: string, url: string, category: string)

  /** `new URL(source).hostname`, or None where the constructor throws. */
  type ParseHost = string -> Option<string>

  const UnknownCategory := "Unknown"

  /** `req.source` is truthy: present and not the empty string. */
  predicate HasSource(r: Requirement)
  {
    r.source.Some? && r.source.value != ""
  }

  /** The entry the first requirement with a given source contributes: its URL is the
      raw source, and its category is never empty. */
  function EntryFor(r: Requirement, parseHost: ParseHost): (d: DataSource)
    requires HasSource(r)
    ensures d.url == r.source.value && d.url != ""
    ensures d.category != ""
    ensures d.category == if r.category == "" then UnknownCategory else r.category
  {
    var source := r.source.value;
    var name := match parseHost(source) case Some(host) => host case None => source;
    DataSource(name, source, if r.category == "" then UnknownCategory else r.category)
  }

  predicate Listed(ds: seq<DataSource>, url: string)
  {
    exists j :: 0 <= j < |ds| && ds[j].url == url
  }

  /** The sources of `reqs`, requirement by requirement, skipping those already listed. */
  function Sources(reqs: seq<Requirement>, parseHost: ParseHost): seq<DataSource>
    decreases |reqs|
  {
    if reqs == [] then []
    else
      var prev := Sources(reqs[..|reqs| - 1], parseHost);
      var r := reqs[|reqs| - 1];
      if HasSource(r) && !Listed(prev, r.source.value) then prev + [EntryFor(r, parseHost)] else prev
  }

  /** `Array.from(map.values())` for a map whose keys were inserted in the order `keys`. */
  function Values(keys: seq<string>, table: map<string, DataSource>): (r: seq<DataSource>)
    requires forall k :: k in keys ==> k in table
    ensures |r| == |keys|
    ensures forall j :: 0 <= j < |keys| ==> r[j] == table[keys[j]]
  {
    if keys == [] then [] else [table[keys[0]]] + Values(keys[1..], table)
  }

  /** Inserting a new key into a table keyed by URL keeps it keyed by URL and appends
      the new entry at the end of its values. */
  lemma InsertEntry(keys: seq<string>, table: map<string, DataSource>, key: string, d: DataSource,
                    t: map<string, DataSource>)
    requires forall k :: k in keys <==> k in table
    requires forall k :: k in table ==> table[k].url == k
    requires key !in table && d.url == key && t == table[key := d]
    ensures forall k :: k in keys + [key] <==> k in t
    ensures forall k :: k in t ==> t[k].url == k
    ensures Values(keys + [key], t) == Values(keys, table) + [d]
  {
    var lhs, rhs := Values(keys + [key], t), Values(keys, table) + [d];
    forall j | 0 <= j < |lhs| ensures lhs[j] == rhs[j] {
      if j < |keys| {
        assert (keys + [key])[j] == keys[j];
      }
    }
  }

  lemma ValuesListed(keys: seq<string>, table: map<string, DataSource>, url: string)
    requires forall k :: k in keys ==> k in table
    requires forall k :: k in table ==> table[k].url == k
    ensures Listed(Values(keys, table), url) <==> url in keys
  {
    var vs := Values(keys, table);
    if url in keys {
      var j :| 0 <= j < |keys| && keys[j] == url;
      assert vs[j].url == url;
    }
  }

  /** One more requirement appends at most its own entry. */
  lemma SourcesSnoc(reqs: seq<Requirement>, i: nat, parseHost: ParseHost)
    requires i < |reqs|
    ensures var prev := Sources(reqs[..i], parseHost);
            var r := reqs[i];
            Sources(reqs[..i + 1], parseHost) ==
              if HasSource(r) && !Listed(prev, r.source.value) then prev + [EntryFor(r, parseHost)] else prev
  {
    assert reqs[..i + 1][..i] == reqs[..i];
  }

  method ExtractDataSources(data: Option<Document>, parseHost: ParseHost) returns (sources: seq<DataSource>)
    ensures sources == if data.Some? && data.value.requirements.Some?
                       then Sources(data.value.requirements.value, parseHost) else []
  {
    var keys: seq<string> := [];
    var table: map<string, DataSource> := map[];
    if data.Some? && data.value.requirements.Some? {
      var reqs := data.value.requirements.value;
      var i := 0;
      while i < |reqs|
        invariant 0 <= i <= |reqs|
        invariant forall k :: k in keys <==> k in table
        invariant forall k :: k in table ==> table[k].url == k
        invariant Values(keys, table) == Sources(reqs[..i], parseHost)
      {
        var req := reqs[i];
        SourcesSnoc(reqs, i, parseHost);
        ValuesListed(keys, table, if req.source.Some? then req.source.value else "");
        if req.source.Some? && req.source.value != "" {
          var source := req.source.value;
          var category := if req.category == "" then UnknownCategory else req.category;
          match parseHost(source) {
            case Some(domain) =>
              if source !in table {
                assert EntryFor(req, parseHost) == DataSource(domain, source, category);
                InsertEntry(keys, table, source, DataSource(domain, source, category), table[source := DataSource(domain, source, category)]);
                keys := keys + [source];
                table := table[source := DataSource(domain, source, category)];
              }
            case None =>
              if source !in table {
                assert EntryFor(req, parseHost) == DataSource(source, source, category);
                InsertEntry(keys, table, source, DataSource(source, source, category), table[source := DataSource(source, source, category)]);
                keys := keys + [source];
                table := table[source := DataSource(source, source, category)];
              }
          }
        }
        i := i + 1;
      }
      assert reqs[..i] == reqs;
    }
    sources := Values(keys, table);
  }

  // ---------------------------------------------------------------------------
  // Properties of Sources

  /** Some requirement of `reqs` has `url` as its (non-empty) source. */
  ghost predicate SourceSeen(reqs: seq<Requirement>, url: string)
  {
    exists k :: 0 <= k < |reqs| && HasSource(reqs[k]) && reqs[k].source.value == url
  }

  /** The listed URLs are exactly the non-empty sources: none is lost, none is made up. */
  lemma {:induction false} SourcesUrls(reqs: seq<Requirement>, parseHost: ParseHost, url: string)
    ensures Listed(Sources(reqs, parseHost), url) <==> SourceSeen(reqs, url)
    decreases |reqs|
  {
    if reqs != [] {
      var n := |reqs|;
      var p := reqs[..n - 1];
      SourcesUrls(p, parseHost, url);
      var prev := Sources(p, parseHost);
      var out := Sources(reqs, parseHost);
      if Listed(out, url) {
        var j :| 0 <= j < |out| && out[j].url == url;
        if j < |prev| {
          assert prev[j] == out[j];
          var k :| 0 <= k < |p| && HasSource(p[k]) && p[k].source.value == url;
          assert reqs[k] == p[k];
        } else {
          assert HasSource(reqs[n - 1]) && reqs[n - 1].source.value == url;
        }
      }
      if SourceSeen(reqs, url) {
        var k :| 0 <= k < n && HasSource(reqs[k]) && reqs[k].source.value == url;
        if k < n - 1 {
          assert p[k] == reqs[k];
          var j :| 0 <= j < |prev| && prev[j].url == url;
          assert out[j] == prev[j];
        } else if !Listed(prev, url) {
          assert out[|prev|].url == url;
        }
      }
    }
  }

  /** No two entries share a URL. */
  predicate DistinctUrls(ds: seq<DataSource>)
  {
    forall i, j :: 0 <= i < j < |ds| ==> ds[i].url != ds[j].url
  }

  lemma {:induction false} SourcesDistinct(reqs: seq<Requirement>, parseHost: ParseHost)
    ensures DistinctUrls(Sources(reqs, parseHost))
    decreases |reqs|
  {
    if reqs != [] {
      var p := reqs[..|reqs| - 1];
      var r := reqs[|reqs| - 1];
      SourcesDistinct(p, parseHost);
      var prev := Sources(p, parseHost);
      if HasSource(r) && !Listed(prev, r.source.value) {
        var out := prev + [EntryFor(r, parseHost)];
        forall i, j | 0 <= i < j < |out| ensures out[i].url != out[j].url {
          assert out[i] == prev[i];
          if j < |prev| {
            assert out[j] == prev[j];
          }
        }
      }
    }
  }

  function CountWithSource(reqs: seq<Requirement>): nat
    decreases |reqs|
  {
    if reqs == [] then 0
    else CountWithSource(reqs[..|reqs| - 1]) + (if HasSource(reqs[|reqs| - 1]) then 1 else 0)
  }

  /** There are no more entries than requirements with a non-empty source. */
  lemma {:induction false} SourcesBound(reqs: seq<Requirement>, parseHost: ParseHost)
    ensures |Sources(reqs, parseHost)| <= CountWithSource(reqs)
    decreases |reqs|
  {
    if reqs != [] {
      SourcesBound(reqs[..|reqs| - 1], parseHost);
    }
  }

  /** `reqs[k]` is the first requirement carrying its source. */
  ghost predicate IsFirstWithSource(reqs: seq<Requirement>, k: nat)
    requires k < |reqs|
  {
    HasSource(reqs[k]) && forall i :: 0 <= i < k ==> reqs[i].source != reqs[k].source
  }

  /** The indices of the first requirement of each source, in increasing order. */
  ghost function FirstIndices(reqs: seq<Requirement>): (ks: seq<nat>)
    ensures forall j :: 0 <= j < |ks| ==> ks[j] < |reqs| && IsFirstWithSource(reqs, ks[j])
    decreases |reqs|
  {
    if reqs == [] then []
    else
      var n := |reqs|;
      var ks := FirstIndices(reqs[..n - 1]);
      assert forall j :: 0 <= j < |ks| ==> IsFirstWithSource(reqs, ks[j]) by {
        forall j | 0 <= j < |ks| ensures IsFirstWithSource(reqs, ks[j]) {
          assert IsFirstWithSource(reqs[..n - 1], ks[j]);
        }
      }
      ks + (if IsFirstWithSource(reqs, n - 1) then [n - 1] else [])
  }

  /** The first indices are increasing, and every first requirement of a source is among them. */
  lemma {:induction false} FirstIndicesExact(reqs: seq<Requirement>)
    ensures var ks := FirstIndices(reqs);
            && (forall i, j :: 0 <= i < j < |ks| ==> ks[i] < ks[j])
            && (forall k :: 0 <= k < |reqs| && IsFirstWithSource(reqs, k) ==> k in ks)
    decreases |reqs|
  {
    if reqs != [] {
      var n := |reqs|;
      var p := reqs[..n - 1];
      FirstIndicesExact(p);
      forall k | 0 <= k < n - 1 && IsFirstWithSource(reqs, k) ensures k in FirstIndices(p) {
        assert IsFirstWithSource(p, k);
      }
    }
  }

  /** The entries for the given requirement indices, in that order. */
  ghost function EntriesAt(reqs: seq<Requirement>, ks: seq<nat>, parseHost: ParseHost): seq<DataSource>
    requires forall j :: 0 <= j < |ks| ==> ks[j] < |reqs| && HasSource(reqs[ks[j]])
  {
    seq(|ks|, j requires 0 <= j < |ks| => EntryFor(reqs[ks[j]], parseHost))
  }

  /** The reference characterisation: one entry per source, taken from the first
      requirement that carries it (its host and its category), in first-occurrence order. */
  lemma {:induction false} SourcesAreFirstEntries(reqs: seq<Requirement>, parseHost: ParseHost)
    ensures Sources(reqs, parseHost) == EntriesAt(reqs, FirstIndices(reqs), parseHost)
    decreases |reqs|
  {
    if reqs != [] {
      var n := |reqs|;
      var p := reqs[..n - 1];
      var r := reqs[n - 1];
      SourcesAreFirstEntries(p, parseHost);
      var ks := FirstIndices(p);
      assert EntriesAt(p, ks, parseHost) == EntriesAt(reqs, ks, parseHost) by {
        forall j | 0 <= j < |ks| ensures p[ks[j]] == reqs[ks[j]] {
        }
      }
      if HasSource(r) {
        SourcesUrls(p, parseHost, r.source.value);
        if IsFirstWithSource(reqs, n - 1) {
          forall k | 0 <= k < |p| ensures p[k].source != r.source {
            assert p[k] == reqs[k];
          }
        } else {
          var k :| 0 <= k < n - 1 && reqs[k].source == r.source;
          assert p[k] == reqs[k];
        }
      }
    }
  }
}
