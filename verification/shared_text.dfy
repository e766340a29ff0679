/**
  Shared texts (features, messages, sources and sinks) are merged on the
  string `"%s:%s" % (contents, kind)`. `SharedTextKind` subclasses the
  SQLAlchemy column type `Enum`, not the standard enumeration, so its
  members are the plain strings `"feature"`, `"message"`, `"source"` and
  `"sink"`, and the key ends in, say, `:feature`.
 */
module SharedTexts {
  import opened Outcomes
  import opened Placeholders
  import opened Merge
  import opened Prepare

  datatype SharedTextKind = Feature | Message | Source | Sink

  /** The string a kind member is. */
  function KindName(k: SharedTextKind): string {
    match k
    case Feature => "feature"
    case Message => "message"
    case Source => "source"
    case Sink => "sink"
  }

  /** What follows the contents in a merge key. */
  function Suffix(k: SharedTextKind): string {
    ":" + KindName(k)
  }

  /** The merge key of a shared text. */
  function MergeKey(contents: string, kind: SharedTextKind): string {
    contents + Suffix(kind)
  }

  predicate EndsWith(s: string, t: string) {
    |t| <= |s| && s[|s| - |t|..] == t
  }

  /** Splits a key into contents and kind, by the suffix it ends in. */
  function ParseKey(key: string): (r: Option<(string, SharedTextKind)>)
    ensures r.Some? ==> MergeKey(r.value.0, r.value.1) == key
  {
    if EndsWith(key, Suffix(Feature)) then Some((key[..|key| - |Suffix(Feature)|], Feature))
    else if EndsWith(key, Suffix(Message)) then Some((key[..|key| - |Suffix(Message)|], Message))
    else if EndsWith(key, Suffix(Source)) then Some((key[..|key| - |Suffix(Source)|], Source))
    else if EndsWith(key, Suffix(Sink)) then Some((key[..|key| - |Suffix(Sink)|], Sink))
    else None
  }

  /** A string ending in two suffixes ends, in the longer, with the shorter. */
  lemma EndsWithBoth(s: string, t: string, u: string)
    requires EndsWith(s, t) && EndsWith(s, u) && |t| <= |u|
    ensures EndsWith(u, t)
  {
    assert u[|u| - |t|..] == s[|s| - |t|..];
  }

  /** No kind's suffix ends in another kind's suffix. */
  lemma SuffixesApart(k: SharedTextKind, k': SharedTextKind)
    requires k != k' && |Suffix(k')| <= |Suffix(k)|
    ensures !EndsWith(Suffix(k), Suffix(k'))
  {
    var s, t := Suffix(k), Suffix(k');
    var n := |t|;
    assert s[|s| - 1] != t[n - 1] || s[|s| - 2] != t[n - 2];
    assert s[|s| - n..][n - 1] == s[|s| - 1] && s[|s| - n..][n - 2] == s[|s| - 2];
  }

  /** A key ends in exactly one kind's suffix: its own. */
  lemma OnlyOwnSuffix(contents: string, k: SharedTextKind, k': SharedTextKind)
    requires k != k'
    ensures !EndsWith(MergeKey(contents, k), Suffix(k'))
  {
    var s := MergeKey(contents, k);
    assert s[|s| - |Suffix(k)|..] == Suffix(k);
    if EndsWith(s, Suffix(k')) {
      if |Suffix(k')| <= |Suffix(k)| {
        EndsWithBoth(s, Suffix(k'), Suffix(k));
        SuffixesApart(k, k');
      } else {
        EndsWithBoth(s, Suffix(k), Suffix(k'));
        SuffixesApart(k', k);
      }
    }
  }

  /** The key gives back the contents and the kind. */
  lemma ParseMergeKey(contents: string, kind: SharedTextKind)
    ensures ParseKey(MergeKey(contents, kind)) == Some((contents, kind))
  {
    var s := MergeKey(contents, kind);
    assert s[|s| - |Suffix(kind)|..] == Suffix(kind);
    assert s[..|s| - |Suffix(kind)|] == contents;
    forall k' | k' != kind
      ensures !EndsWith(s, Suffix(k'))
    {
      OnlyOwnSuffix(contents, kind, k');
    }
  }

  /** Two shared texts share a key exactly when they have the same contents
      and the same kind, whatever characters the contents hold. */
  lemma MergeKeyInjective(c: string, k: SharedTextKind, c': string, k': SharedTextKind)
    ensures MergeKey(c, k) == MergeKey(c', k') <==> c == c' && k == k'
  {
    ParseMergeKey(c, k);
    ParseMergeKey(c', k');
  }

  /** A shared text offered for insertion. */
  datatype Text = Text(contents: string, kind: SharedTextKind, id: Dbid)

  /** The candidates `SharedText.merge` sees: each text keyed by its merge key. */
  function TextCandidates(texts: seq<Text>): (r: seq<Candidate<string>>)
    ensures |r| == |texts|
    ensures forall j :: 0 <= j < |texts| ==>
      r[j] == Candidate(MergeKey(texts[j].contents, texts[j].kind), texts[j].id)
  {
    seq(|texts|, j requires 0 <= j < |texts| => Candidate(MergeKey(texts[j].contents, texts[j].kind), texts[j].id))
  }

  /** After `prepare`, two shared texts not yet stored end up with the same
      id exactly when they have the same contents and kind. */
  lemma SameTextSameId(h: Heap, store: map<string, int>, texts: seq<Text>, base: int, heap: Heap, j: nat, j': nat)
    requires IdsIn(h, TextCandidates(texts))
    requires SettledHeap(h, store, TextCandidates(texts), base, heap) && WellFormed(heap)
    requires j < |texts| && j' < |texts|
    requires MergeKey(texts[j].contents, texts[j].kind) !in store
    requires MergeKey(texts[j'].contents, texts[j'].kind) !in store
    ensures Resolved(heap, texts[j].id) == Resolved(heap, texts[j'].id) <==>
      texts[j].contents == texts[j'].contents && texts[j].kind == texts[j'].kind
  {
    var items := TextCandidates(texts);
    SameIdIffSameKey(h, store, items, base, heap, j, j');
    MergeKeyInjective(texts[j].contents, texts[j].kind, texts[j'].contents, texts[j'].kind);
  }
}
