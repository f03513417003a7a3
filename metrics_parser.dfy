/** src/utils/metricsParser.ts: turning a JSON-lines log into grouped series. */
module MetricsParser {
  import opened MetricTypes
  import opened Strings
  import opened Buckets
  import opened ArraySort

  /** The message of the error thrown when no line decodes. */
  const NoMetricsError: string := "No valid metrics found in file"

  // ---------------------------------------------------------------------------
  // Series identity and label formatting
  // ---------------------------------------------------------------------------

  /** One label rendered as `k="v"`. */
  function RenderLabel(e: (string, string)): (r: string)
    ensures r != []
  {
    e.0 + "=\"" + e.1 + "\""
  }

  /** `.map(([k, v]) => `${k}="${v}"`)`. */
  function RenderLabels(ls: seq<(string, string)>): (rs: seq<string>)
    ensures |rs| == |ls| && forall i :: 0 <= i < |ls| ==> rs[i] == RenderLabel(ls[i])
  {
    if ls == [] then [] else [RenderLabel(ls[0])] + RenderLabels(ls[1..])
  }

  /** `getSeriesKey`: the bare name without labels, otherwise the name followed by the
      labels sorted by key, rendered `k="v"`, joined by `,` and wrapped in braces. */
  function SeriesKey(name: string, labels: Labels): (key: string)
    ensures labels == [] ==> key == name
    ensures labels != [] ==> key == name + "{" + Join(RenderLabels(SortLabels(labels)), ",") + "}"
  {
    var labelStr := Join(RenderLabels(SortLabels(labels)), ",");
    LabelStrNonEmpty(labels);
    if labelStr != [] then name + "{" + labelStr + "}" else name
  }

  lemma LabelStrNonEmpty(labels: Labels)
    ensures labels != [] ==> Join(RenderLabels(SortLabels(labels)), ",") != []
  {
    if labels != [] {
      SortLabelsPermutes(labels);
      assert labels[0] in multiset(SortLabels(labels));
      JoinNonEmpty(RenderLabels(SortLabels(labels)), ",");
    }
  }

  /** The key lists the labels in strictly ascending key order, each exactly once. */
  lemma SeriesKeyCanonical(name: string, labels: Labels)
    requires labels != []
    ensures var ps := SortLabels(labels);
            && KeysAscending(ps) && multiset(ps) == multiset(labels)
            && SeriesKey(name, labels) == name + "{" + Join(RenderLabels(ps), ",") + "}"
  {
    SortLabelsAscending(labels);
    SortLabelsPermutes(labels);
  }

  /** The key does not depend on the order of the label entries. */
  lemma SeriesKeyOrderIndependent(name: string, a: Labels, b: Labels)
    requires multiset(a) == multiset(b)
    ensures SeriesKey(name, a) == SeriesKey(name, b)
  {
    SortLabelsAscending(a);
    SortLabelsAscending(b);
    SortLabelsPermutes(a);
    SortLabelsPermutes(b);
    AscendingUnique(SortLabels(a), SortLabels(b));
  }

  /** `formatLabels`: empty exactly when there are no labels; otherwise the labels in
      insertion order, rendered `k="v"` and joined by `", "`. */
  function FormatLabels(labels: Labels): (r: string)
    ensures r == [] <==> labels == []
    ensures labels != [] ==> r == Join(RenderLabels(labels), ", ")
  {
    if |labels| == 0 then []
    else
      JoinNonEmpty(RenderLabels(labels), ", ");
      Join(RenderLabels(labels), ", ")
  }

  // ---------------------------------------------------------------------------
  // Display names
  // ---------------------------------------------------------------------------

  /** A character matched by the regular-expression class `\w`. */
  predicate IsWordChar(c: char) {
    'a' <= c <= 'z' || 'A' <= c <= 'Z' || '0' <= c <= '9' || c == '_'
  }

  /** Position `i` of `s` matches `\b\w`: a word character not preceded by one. */
  predicate StartsWord(s: string, i: int)
    requires 0 <= i < |s|
  {
    IsWordChar(s[i]) && (i == 0 || !IsWordChar(s[i - 1]))
  }

  /** `.replace(/_/g, ' ')`. */
  function SpaceUnderscores(s: string): (r: string)
    ensures |r| == |s|
    ensures forall i :: 0 <= i < |s| ==> r[i] == if s[i] == '_' then ' ' else s[i]
  {
    seq(|s|, i requires 0 <= i < |s| => if s[i] == '_' then ' ' else s[i])
  }

  /** `.replace(/\b\w/g, l => l.toUpperCase())`. */
  function CapitalizeWords(s: string): (r: string)
    ensures |r| == |s|
    ensures forall i :: 0 <= i < |s| ==> r[i] == if StartsWord(s, i) then UpperChar(s[i]) else s[i]
  {
    seq(|s|, i requires 0 <= i < |s| => if StartsWord(s, i) then UpperChar(s[i]) else s[i])
  }

  /** Position `i` of a raw name begins a word once underscores are spaces: a word
      character other than `_`, at the start or after `_` or a non-word character. */
  predicate BeginsWord(name: string, i: int)
    requires 0 <= i < |name|
  {
    name[i] != '_' && IsWordChar(name[i]) && (i == 0 || name[i - 1] == '_' || !IsWordChar(name[i - 1]))
  }

  /** `formatMetricName`: underscores become spaces, the first letter of every word is
      upper-cased, and every other character is kept. */
  function FormatMetricName(name: string): (r: string)
    ensures |r| == |name|
    ensures '_' !in r
    ensures forall i :: 0 <= i < |name| ==>
              r[i] == if name[i] == '_' then ' ' else if BeginsWord(name, i) then UpperChar(name[i]) else name[i]
  {
    var spaced := SpaceUnderscores(name);
    var r := CapitalizeWords(spaced);
    assert forall i :: 0 <= i < |r| ==> r[i] != '_' by {
      forall i | 0 <= i < |r| ensures r[i] != '_' {
        assert spaced[i] != '_';
      }
    }
    assert forall i :: 0 <= i < |name| ==> (StartsWord(spaced, i) <==> BeginsWord(name, i)) by {
      forall i | 0 <= i < |name| ensures StartsWord(spaced, i) <==> BeginsWord(name, i) {
        if i > 0 {
          assert spaced[i - 1] == if name[i - 1] == '_' then ' ' else name[i - 1];
        }
      }
    }
    r
  }

  /** Formatting a name that is already formatted changes nothing. */
  lemma FormatMetricNameIdempotent(name: string)
    ensures FormatMetricName(FormatMetricName(name)) == FormatMetricName(name)
  {
    var r := FormatMetricName(name);
    var spaced := SpaceUnderscores(r);
    assert spaced == r;
    var s0 := SpaceUnderscores(name);
    forall i | 0 <= i < |r| ensures IsWordChar(r[i]) == IsWordChar(s0[i]) && (IsWordChar(r[i]) ==> UpperChar(r[i]) == r[i] || !StartsWord(r, i)) {
    }
    forall i | 0 <= i < |r| ensures CapitalizeWords(r)[i] == r[i] {
      if StartsWord(r, i) {
        assert StartsWord(s0, i);
      }
    }
  }

  // ---------------------------------------------------------------------------
  // Categories
  // ---------------------------------------------------------------------------

  /** The seven groups of `categorizeMetrics`, in the order of its rules. */
  datatype Category = Tunnel | Network | Http | Memory | Process | Rpc | Other

  const Categories: seq<Category> := [Tunnel, Network, Http, Memory, Process, Rpc, Other]

  /** Position of a category's rule in the rule list. */
  function RuleIndex(c: Category): (i: nat)
    ensures i < |Categories| && Categories[i] == c
  {
    match c
    case Tunnel => 0 case Network => 1 case Http => 2 case Memory => 3
    case Process => 4 case Rpc => 5 case Other => 6
  }

  /** The key of a category in the groups record. */
  function CategoryKey(c: Category): string {
    match c
    case Tunnel => "tunnel" case Network => "network" case Http => "http"
    case Memory => "memory" case Process => "process" case Rpc => "rpc" case Other => "other"
  }

  /** The display name of a category's group. */
  function CategoryTitle(c: Category): string {
    match c
    case Tunnel => "Tunnel Health" case Network => "Network & QUIC" case Http => "HTTP Responses"
    case Memory => "Memory & Resources" case Process => "Process Metrics"
    case Rpc => "RPC & Registration" case Other => "Other Metrics"
  }

  /** The condition of each rule on its own. */
  predicate RuleMatches(c: Category, name: string) {
    match c
    case Tunnel => StartsWith(name, "cloudflared_tunnel_")
    case Network => StartsWith(name, "quic_client_") || Contains(name, "_latency")
    case Http => Contains(name, "response") || Contains(name, "request")
    case Memory => StartsWith(name, "go_memstats_") || StartsWith(name, "go_gc_")
    case Process => StartsWith(name, "process_") || name == "go_goroutines" || name == "go_threads"
    case Rpc => StartsWith(name, "cloudflared_rpc_")
    case Other => true
  }

  /** The group a series name goes to: the first rule, in rule order, that matches. */
  function CategoryOf(name: string): (c: Category)
    ensures RuleMatches(c, name)
    ensures forall d :: RuleIndex(d) < RuleIndex(c) ==> !RuleMatches(d, name)
  {
    if StartsWith(name, "cloudflared_tunnel_") then Tunnel
    else if StartsWith(name, "quic_client_") || Contains(name, "_latency") then Network
    else if Contains(name, "response") || Contains(name, "request") then Http
    else if StartsWith(name, "go_memstats_") || StartsWith(name, "go_gc_") then Memory
    else if StartsWith(name, "process_") || name == "go_goroutines" || name == "go_threads" then Process
    else if StartsWith(name, "cloudflared_rpc_") then Rpc
    else Other
  }

  function SeriesCategory(s: Series): Category {
    CategoryOf(s.name)
  }

  /** The group entry of category `c`: its key, its title and its members in input order. */
  function CategoryEntry(series: seq<Series>, c: Category): GroupEntry {
    GroupEntry(CategoryKey(c), Group(CategoryTitle(c), Bucket(series, SeriesCategory, c)))
  }

  /** The categories of `cs` (in that order) that receive at least one series. */
  function Present(series: seq<Series>, cs: seq<Category>): (ps: seq<Category>)
    ensures |ps| <= |cs|
  {
    if cs == [] then []
    else
      var c := cs[|cs| - 1];
      Present(series, cs[..|cs| - 1]) + (if Bucket(series, SeriesCategory, c) != [] then [c] else [])
  }

  lemma PresentSnoc(series: seq<Series>, cs: seq<Category>, c: Category)
    ensures Present(series, cs + [c])
         == Present(series, cs) + (if Bucket(series, SeriesCategory, c) != [] then [c] else [])
  {
    assert (cs + [c])[..|cs|] == cs;
  }

  /** A category is kept exactly when it is listed and receives some series. */
  lemma {:induction false} PresentMembership(series: seq<Series>, cs: seq<Category>, c: Category)
    ensures c in Present(series, cs) <==> c in cs && Bucket(series, SeriesCategory, c) != []
  {
    if cs != [] {
      var init := cs[..|cs| - 1];
      assert cs == init + [cs[|cs| - 1]];
      PresentMembership(series, init, c);
      PresentSnoc(series, init, cs[|cs| - 1]);
    }
  }

  /** The entries of the categories `cs`, in that order. */
  function Entries(series: seq<Series>, cs: seq<Category>): (es: seq<GroupEntry>)
    ensures |es| == |cs| && forall i :: 0 <= i < |cs| ==> es[i] == CategoryEntry(series, cs[i])
  {
    if cs == [] then [] else Entries(series, cs[..|cs| - 1]) + [CategoryEntry(series, cs[|cs| - 1])]
  }

  lemma EntriesSnoc(series: seq<Series>, cs: seq<Category>, c: Category)
    ensures Entries(series, cs + [c]) == Entries(series, cs) + [CategoryEntry(series, c)]
  {
    assert (cs + [c])[..|cs|] == cs;
  }

  /** What `categorizeMetrics` returns for `series`. */
  function Categorized(series: seq<Series>): seq<GroupEntry> {
    Entries(series, Present(series, Categories))
  }

  /** The first pass of `categorizeMetrics`: each series pushed, in input order, onto
      the member list of its first matching rule. */
  method MembersByCategory(series: seq<Series>) returns (members: map<Category, seq<Series>>)
    ensures forall c :: c in Categories ==> c in members && members[c] == Bucket(series, SeriesCategory, c)
  {
    members := map c | c in Categories :: [];
    for i := 0 to |series|
      invariant forall c :: c in Categories ==> c in members && members[c] == Bucket(series[..i], SeriesCategory, c)
    {
      var c := CategoryOf(series[i].name);
      assert c == Categories[RuleIndex(c)];
      assert series[..i + 1] == series[..i] + [series[i]];
      forall d ensures Bucket(series[..i + 1], SeriesCategory, d)
                      == Bucket(series[..i], SeriesCategory, d) + (if c == d then [series[i]] else []) {
        BucketSnoc(series[..i], series[i], SeriesCategory, d);
      }
      members := members[c := members[c] + [series[i]]];
    }
    assert series[..|series|] == series;
  }

  /** `categorizeMetrics`: one pass pushing each series into the group of its first
      matching rule, then the non-empty groups in rule order. */
  method CategorizeMetrics(series: seq<Series>) returns (groups: seq<GroupEntry>)
    ensures groups == Categorized(series)
  {
    var members := MembersByCategory(series);
    groups := [];
    for j := 0 to |Categories|
      invariant groups == Entries(series, Present(series, Categories[..j]))
    {
      var c := Categories[j];
      assert Categories[..j + 1] == Categories[..j] + [c];
      PresentSnoc(series, Categories[..j], c);
      EntriesSnoc(series, Present(series, Categories[..j]), c);
      if members[c] != [] {
        groups := groups + [GroupEntry(CategoryKey(c), Group(CategoryTitle(c), members[c]))];
      }
    }
    assert Categories[..|Categories|] == Categories;
  }

  /** The rule list lists each category once, at its own index. */
  lemma RuleIndexOf(k: nat)
    requires k < |Categories|
    ensures RuleIndex(Categories[k]) == k
  {
  }

  /** Categories come out in rule order, each at most once. */
  lemma PresentInRuleOrder(series: seq<Series>, n: nat)
    requires n <= |Categories|
    ensures forall i, j :: 0 <= i < j < |Present(series, Categories[..n])| ==>
              RuleIndex(Present(series, Categories[..n])[i]) < RuleIndex(Present(series, Categories[..n])[j])
    ensures forall c :: c in Present(series, Categories[..n]) ==> RuleIndex(c) < n
  {
    var cs := Categories[..n];
    forall i, j | 0 <= i < j < |cs| ensures RuleIndex(cs[i]) < RuleIndex(cs[j]) {
      RuleIndexOf(i);
      RuleIndexOf(j);
    }
    PresentOrdered(series, cs);
    forall c | c in Present(series, cs) ensures RuleIndex(c) < n {
      PresentMembership(series, cs, c);
      var k :| 0 <= k < n && cs[k] == c;
      RuleIndexOf(k);
    }
  }

  /** Filtering a list of categories in rule order keeps them in rule order. */
  lemma {:induction false} PresentOrdered(series: seq<Series>, cs: seq<Category>)
    requires forall i, j :: 0 <= i < j < |cs| ==> RuleIndex(cs[i]) < RuleIndex(cs[j])
    ensures forall i, j :: 0 <= i < j < |Present(series, cs)| ==>
              RuleIndex(Present(series, cs)[i]) < RuleIndex(Present(series, cs)[j])
  {
    if cs != [] {
      var init := cs[..|cs| - 1];
      var c := cs[|cs| - 1];
      PresentOrdered(series, init);
      var ps0 := Present(series, init);
      var ps := Present(series, cs);
      assert ps == ps0 + (if Bucket(series, SeriesCategory, c) != [] then [c] else []);
      forall i, j | 0 <= i < j < |ps| ensures RuleIndex(ps[i]) < RuleIndex(ps[j]) {
        assert ps[i] == ps0[i];
        if j >= |ps0| {
          assert ps[j] == c;
          assert ps0[i] in ps0;
          PresentMembership(series, init, ps0[i]);
          var k :| 0 <= k < |init| && init[k] == ps0[i];
          assert cs[k] == ps0[i];
        } else {
          assert ps[j] == ps0[j];
        }
      }
    }
  }

  /** The groups of `categorizeMetrics` are non-empty, and their keys are distinct and
      follow the order of the rules. */
  lemma CategorizedKeys(series: seq<Series>)
    ensures var gs := Categorized(series);
            && (forall i :: 0 <= i < |gs| ==> gs[i].group.metrics != [])
            && DistinctGroupKeys(gs)
  {
    var ps := Present(series, Categories);
    var gs := Categorized(series);
    PresentInRuleOrder(series, |Categories|);
    assert Categories[..|Categories|] == Categories;
    assert ps == Present(series, Categories[..|Categories|]);
    forall i, j | 0 <= i < j < |gs| ensures gs[i].key != gs[j].key {
      assert RuleIndex(ps[i]) < RuleIndex(ps[j]);
    }
    forall i | 0 <= i < |gs| ensures gs[i].group.metrics != [] {
      PresentMembership(series, Categories, ps[i]);
    }
  }

  /** A series lies in a returned group exactly when that group is keyed by the category
      of its first matching rule; the group's title is that category's. */
  lemma CategorizedMembership(series: seq<Series>, x: Series, i: nat)
    requires x in series && i < |Categorized(series)|
    ensures var g := Categorized(series)[i];
            x in g.group.metrics <==> g.key == CategoryKey(CategoryOf(x.name))
  {
    var ps := Present(series, Categories);
    var g := Categorized(series)[i];
    assert g == CategoryEntry(series, ps[i]);
    BucketMembership(series, SeriesCategory, ps[i], x);
    assert x in g.group.metrics <==> SeriesCategory(x) == ps[i];
    CategoryKeyInjective(ps[i], CategoryOf(x.name));
  }

  /** Different categories have different keys. */
  lemma CategoryKeyInjective(c: Category, d: Category)
    ensures CategoryKey(c) == CategoryKey(d) <==> c == d
  {
    if c != d {
      assert CategoryKey(c)[0] != CategoryKey(d)[0];
    }
  }

  /** Every series of the input lies in some returned group. */
  lemma CategorizedCovers(series: seq<Series>, x: Series)
    requires x in series
    ensures exists i :: 0 <= i < |Categorized(series)| && x in Categorized(series)[i].group.metrics
  {
    var ps := Present(series, Categories);
    var c := CategoryOf(x.name);
    BucketMembership(series, SeriesCategory, c, x);
    assert c == Categories[RuleIndex(c)];
    PresentMembership(series, Categories, c);
    var i :| 0 <= i < |ps| && ps[i] == c;
    assert x in Categorized(series)[i].group.metrics;
  }

  /** Joined together, the groups returned by `categorizeMetrics` are a permutation of
      its input: no series is lost or duplicated. */
  lemma CategorizedPermutes(series: seq<Series>)
    ensures multiset(Flatten(GroupMetricLists(Categorized(series)))) == multiset(series)
  {
    forall x | x in series ensures SeriesCategory(x) in Categories {
      assert SeriesCategory(x) == Categories[RuleIndex(SeriesCategory(x))];
    }
    BucketsCover(series, SeriesCategory, Categories);
    FlattenPresent(series, Categories);
  }

  /** The groups hold exactly the points of the input series. */
  lemma CategorizedPoints(series: seq<Series>)
    ensures GroupPointCount(Categorized(series)) == PointCount(series)
  {
    CategorizedPermutes(series);
    GroupPointCountFlatten(Categorized(series));
    PointCountPermutation(Flatten(GroupMetricLists(Categorized(series))), series);
  }

  /** Dropping the empty buckets does not change their concatenation. */
  lemma {:induction false} FlattenPresent(series: seq<Series>, cs: seq<Category>)
    ensures Flatten(GroupMetricLists(Entries(series, Present(series, cs))))
         == Flatten(BucketsOf(series, SeriesCategory, cs))
  {
    if cs != [] {
      var init, c := cs[..|cs| - 1], cs[|cs| - 1];
      assert cs == init + [c];
      FlattenPresent(series, init);
      var p := Present(series, init);
      var b := Bucket(series, SeriesCategory, c);
      GroupMetricsSnoc(Entries(series, p), CategoryEntry(series, c));
      BucketsOfSnocKey(series, SeriesCategory, init, c);
      FlattenAppend(BucketsOf(series, SeriesCategory, init), [b]);
      assert Flatten([b]) == b;
      if b != [] {
        assert Present(series, cs) == p + [c];
        assert Entries(series, p + [c]) == Entries(series, p) + [CategoryEntry(series, c)];
        FlattenAppend(GroupMetricLists(Entries(series, p)), [b]);
      } else {
        assert Present(series, cs) == p;
      }
    }
  }

  lemma GroupMetricsSnoc(gs: seq<GroupEntry>, g: GroupEntry)
    ensures GroupMetricLists(gs + [g]) == GroupMetricLists(gs) + [g.group.metrics]
  {
  }

  lemma BucketsOfSnocKey<T(!new), K(!new)>(xs: seq<T>, f: T -> K, ks: seq<K>, k: K)
    ensures BucketsOf(xs, f, ks + [k]) == BucketsOf(xs, f, ks) + [Bucket(xs, f, k)]
  {
  }

  // ---------------------------------------------------------------------------
  // Decoding the lines
  // ---------------------------------------------------------------------------

  /** `content.trim().split('\n')`. */
  function Lines(content: string): (lines: seq<string>)
    ensures |lines| >= 1
  {
    Split(Trim(content), '\n')
  }

  /** The whole trimmed content is recovered by joining the lines with newlines. */
  lemma LinesJoin(content: string)
    ensures Join(Lines(content), "\n") == Trim(content)
  {
    JoinSplit(Trim(content), '\n');
  }

  /** `!line.trim()`: the line holds nothing but whitespace (see `TrimEmptyIffBlank`). */
  predicate IsBlank(line: string) {
    AllWhitespace(line)
  }

  /** The samples obtained from `lines`, in order: blank lines are skipped, and a line
      the decoder rejects is dropped (the error is only logged). */
  function DecodeAll(lines: seq<string>, decode: string -> Option<Sample>): (samples: seq<Sample>)
    ensures |samples| <= |lines|
  {
    if lines == [] then []
    else DecodeAll(lines[..|lines| - 1], decode) + LineSamples(lines[|lines| - 1], decode)
  }

  /** What one line contributes: nothing when blank or rejected, else its sample. */
  function LineSamples(line: string, decode: string -> Option<Sample>): (xs: seq<Sample>)
    ensures |xs| <= 1
  {
    if IsBlank(line) then [] else match decode(line) case Some(x) => [x] case None => []
  }

  lemma DecodeAllSnoc(lines: seq<string>, decode: string -> Option<Sample>, i: nat)
    requires i < |lines|
    ensures DecodeAll(lines[..i + 1], decode) == DecodeAll(lines[..i], decode) + LineSamples(lines[i], decode)
  {
    assert lines[..i + 1][..i] == lines[..i];
  }

  /** Line `i` is not blank and decodes to `x`. */
  predicate YieldsAt(lines: seq<string>, decode: string -> Option<Sample>, x: Sample, i: int) {
    0 <= i < |lines| && !IsBlank(lines[i]) && decode(lines[i]) == Some(x)
  }

  /** A sample is kept exactly when some non-blank line decodes to it. */
  lemma {:induction false} DecodeAllMembership(lines: seq<string>, decode: string -> Option<Sample>, x: Sample)
    ensures x in DecodeAll(lines, decode) <==> exists i :: YieldsAt(lines, decode, x, i)
  {
    if lines != [] {
      var n := |lines| - 1;
      var init := lines[..n];
      DecodeAllMembership(init, decode, x);
      var tail := LineSamples(lines[n], decode);
      assert DecodeAll(lines, decode) == DecodeAll(init, decode) + tail;
      assert x in tail <==> YieldsAt(lines, decode, x, n);
      if exists i :: YieldsAt(init, decode, x, i) {
        var i :| YieldsAt(init, decode, x, i);
        assert YieldsAt(lines, decode, x, i);
      }
      if exists i :: YieldsAt(lines, decode, x, i) {
        var i :| YieldsAt(lines, decode, x, i);
        if i < n {
          assert YieldsAt(init, decode, x, i);
        }
      }
    }
  }

  /** No sample comes out exactly when every line is blank or rejected. */
  lemma {:induction false} DecodeAllEmpty(lines: seq<string>, decode: string -> Option<Sample>)
    ensures DecodeAll(lines, decode) == []
            <==> forall i :: 0 <= i < |lines| ==> IsBlank(lines[i]) || decode(lines[i]).None?
  {
    if lines != [] {
      var init := lines[..|lines| - 1];
      DecodeAllEmpty(init, decode);
      assert forall i :: 0 <= i < |init| ==> init[i] == lines[i];
    }
  }

  /** The decoding loop of `parseJSONL`. */
  method DecodeLines(lines: seq<string>, decode: string -> Option<Sample>) returns (samples: seq<Sample>)
    ensures samples == DecodeAll(lines, decode)
  {
    samples := [];
    for i := 0 to |lines|
      invariant samples == DecodeAll(lines[..i], decode)
    {
      DecodeAllSnoc(lines, decode, i);
      var line := lines[i];
      TrimEmptyIffBlank(line);
      var blank := Trim(line) == [];
      assert blank == IsBlank(line);
      if blank {
        assert LineSamples(line, decode) == [];
        continue;
      }
      match decode(line)
      case Some(x) =>
        assert LineSamples(line, decode) == [x];
        samples := samples + [x];
      case None =>
        assert LineSamples(line, decode) == [];
    }
    assert lines[..|lines|] == lines;
  }

  // ---------------------------------------------------------------------------
  // Grouping the samples into series
  // ---------------------------------------------------------------------------

  /** The series a sample belongs to. */
  function SampleKey(x: Sample): string {
    SeriesKey(x.name, x.labels)
  }

  /** `{ timestamp: new Date(sample.timestamp), value: sample.value }`. */
  function ToPoint(x: Sample): Point {
    Point(x.timestamp, x.value)
  }

  function ToPoints(xs: seq<Sample>): (ps: seq<Point>)
    ensures |ps| == |xs| && forall i :: 0 <= i < |xs| ==> ps[i] == ToPoint(xs[i])
  {
    if xs == [] then [] else [ToPoint(xs[0])] + ToPoints(xs[1..])
  }

  /** `a.timestamp.getTime() - b.timestamp.getTime()` sorts by this key. */
  function PointTime(p: Point): int {
    p.timestamp
  }

  /** The series of the samples `b` (all with one key): name, type and labels of the
      first of them, and their points stably sorted by timestamp. */
  function SeriesFrom(b: seq<Sample>): Series
    requires b != []
  {
    Series(b[0].name, b[0].kind, b[0].labels, SortBy(ToPoints(b), PointTime))
  }

  /** The series of the keys `ks`, in that order. */
  function SeriesOfKeys(samples: seq<Sample>, ks: seq<string>): (ss: seq<Series>)
    requires forall k :: k in ks ==> Bucket(samples, SampleKey, k) != []
    ensures |ss| == |ks|
  {
    if ks == [] then [] else [SeriesFrom(Bucket(samples, SampleKey, ks[0]))] + SeriesOfKeys(samples, ks[1..])
  }

  lemma KeysHaveSamples(samples: seq<Sample>)
    ensures forall k :: k in Keys(samples, SampleKey) ==> Bucket(samples, SampleKey, k) != []
  {
    forall k | k in Keys(samples, SampleKey) ensures Bucket(samples, SampleKey, k) != [] {
      KeysMembership(samples, SampleKey, k);
      var x :| x in samples && SampleKey(x) == k;
      BucketMembership(samples, SampleKey, k, x);
    }
  }

  /** `Array.from(seriesMap.values())` once every series' points are sorted. */
  function Assembled(samples: seq<Sample>): seq<Series> {
    KeysHaveSamples(samples);
    SeriesOfKeys(samples, Keys(samples, SampleKey))
  }

  /** The series-map loop and the sorting loop of `parseJSONL`. */
  method AssembleSeries(samples: seq<Sample>) returns (series: seq<Series>)
    ensures series == Assembled(samples)
  {
    var order, buckets := GroupBy(samples, SampleKey);
    KeysHaveSamples(samples);
    series := [];
    for j := 0 to |order|
      invariant series == SeriesOfKeys(samples, order[..j])
    {
      var b := buckets[order[j]];
      assert b == Bucket(samples, SampleKey, order[j]);
      var s := Series(b[0].name, b[0].kind, b[0].labels, ToPoints(b));
      s := s.(data := SortBy(s.data, PointTime));
      SeriesOfKeysStep(samples, order, j);
      series := series + [s];
    }
    assert order[..|order|] == order;
  }

  lemma SeriesOfKeysStep(samples: seq<Sample>, order: seq<string>, j: nat)
    requires j < |order| && forall k :: k in order ==> Bucket(samples, SampleKey, k) != []
    ensures SeriesOfKeys(samples, order[..j + 1])
         == SeriesOfKeys(samples, order[..j]) + [SeriesFrom(Bucket(samples, SampleKey, order[j]))]
  {
    assert order[..j + 1] == order[..j] + [order[j]];
    SeriesOfKeysSnoc(samples, order[..j], order[j]);
  }

  lemma {:induction false} SeriesOfKeysSnoc(samples: seq<Sample>, ks: seq<string>, k: string)
    requires forall k' :: k' in ks + [k] ==> Bucket(samples, SampleKey, k') != []
    ensures SeriesOfKeys(samples, ks + [k]) == SeriesOfKeys(samples, ks) + [SeriesFrom(Bucket(samples, SampleKey, k))]
  {
    if ks != [] {
      assert (ks + [k])[1..] == ks[1..] + [k];
      SeriesOfKeysSnoc(samples, ks[1..], k);
    }
  }

  lemma {:induction false} SeriesOfKeysIndex(samples: seq<Sample>, ks: seq<string>, i: nat)
    requires forall k :: k in ks ==> Bucket(samples, SampleKey, k) != []
    requires i < |ks|
    ensures SeriesOfKeys(samples, ks)[i] == SeriesFrom(Bucket(samples, SampleKey, ks[i]))
  {
    if i > 0 {
      SeriesOfKeysIndex(samples, ks[1..], i - 1);
    }
  }

  /** There is one series per distinct series key, in order of first appearance, and
      each carries the name, type and labels of the first sample with its key. */
  lemma AssembledIdentity(samples: seq<Sample>, i: nat)
    requires i < |Assembled(samples)|
    ensures var s := Assembled(samples)[i];
            var k := Keys(samples, SampleKey)[i];
            var f := FirstIndex(samples, SampleKey, k);
            && f < |samples|
            && SeriesKey(s.name, s.labels) == k
            && s.name == samples[f].name && s.kind == samples[f].kind && s.labels == samples[f].labels
  {
    var k := Keys(samples, SampleKey)[i];
    KeysHaveSamples(samples);
    SeriesOfKeysIndex(samples, Keys(samples, SampleKey), i);
    BucketHead(samples, SampleKey, k);
    var b := Bucket(samples, SampleKey, k);
    BucketMembership(samples, SampleKey, k, b[0]);
  }

  /** Distinct series have distinct keys. */
  lemma AssembledDistinct(samples: seq<Sample>, i: nat, j: nat)
    requires i < j < |Assembled(samples)|
    ensures var ss := Assembled(samples);
            SeriesKey(ss[i].name, ss[i].labels) != SeriesKey(ss[j].name, ss[j].labels)
  {
    AssembledIdentity(samples, i);
    AssembledIdentity(samples, j);
  }

  /** The points of each series are sorted by time, are exactly the points of the
      samples with its key, and points with equal timestamps keep file order. */
  lemma AssembledPoints(samples: seq<Sample>, i: nat, t: int)
    requires i < |Assembled(samples)|
    ensures var s := Assembled(samples)[i];
            var b := Bucket(samples, SampleKey, Keys(samples, SampleKey)[i]);
            && SortedBy(s.data, PointTime)
            && multiset(s.data) == multiset(ToPoints(b))
            && Bucket(s.data, PointTime, t) == Bucket(ToPoints(b), PointTime, t)
  {
    var k := Keys(samples, SampleKey)[i];
    KeysHaveSamples(samples);
    SeriesOfKeysIndex(samples, Keys(samples, SampleKey), i);
    var b := Bucket(samples, SampleKey, k);
    SortBySorted(ToPoints(b), PointTime);
    SortByPermutes(ToPoints(b), PointTime);
    SortByStable(ToPoints(b), PointTime, t);
  }

  lemma {:induction false} SeriesOfKeysPoints(samples: seq<Sample>, ks: seq<string>)
    requires forall k :: k in ks ==> Bucket(samples, SampleKey, k) != []
    ensures PointCount(SeriesOfKeys(samples, ks)) == |Flatten(BucketsOf(samples, SampleKey, ks))|
  {
    if ks != [] {
      SeriesOfKeysPoints(samples, ks[1..]);
      var b := Bucket(samples, SampleKey, ks[0]);
      SortByPermutes(ToPoints(b), PointTime);
      assert |SortBy(ToPoints(b), PointTime)| == |multiset(ToPoints(b))|;
    }
  }

  /** Every sample becomes exactly one point: the series hold `samples.length` points. */
  lemma AssembledPointCount(samples: seq<Sample>)
    ensures PointCount(Assembled(samples)) == |samples|
  {
    KeysHaveSamples(samples);
    SeriesOfKeysPoints(samples, Keys(samples, SampleKey));
    BucketSizes(samples, SampleKey);
  }

  // ---------------------------------------------------------------------------
  // Time range and the whole parse
  // ---------------------------------------------------------------------------

  /** The min/max loop of `parseJSONL`. It starts from `Infinity` and `-Infinity`,
      which the first sample replaces; the caller has already rejected an empty list. */
  method TimeRangeOf(samples: seq<Sample>) returns (range: TimeRange)
    requires samples != []
    ensures forall x :: x in samples ==> range.start <= x.timestamp <= range.end
    ensures exists i :: 0 <= i < |samples| && samples[i].timestamp == range.start
    ensures exists i :: 0 <= i < |samples| && samples[i].timestamp == range.end
  {
    var minTime, maxTime := samples[0].timestamp, samples[0].timestamp;
    ghost var lo, hi := 0, 0;
    for i := 1 to |samples|
      invariant 0 <= lo < i && 0 <= hi < i
      invariant samples[lo].timestamp == minTime && samples[hi].timestamp == maxTime
      invariant forall j :: 0 <= j < i ==> minTime <= samples[j].timestamp <= maxTime
    {
      var time := samples[i].timestamp;
      if time < minTime {
        minTime, lo := time, i;
      }
      if time > maxTime {
        maxTime, hi := time, i;
      }
    }
    range := TimeRange(minTime, maxTime);
  }

  /** `parseJSONL`, with `JSON.parse` given as `decode`. It fails with the documented
      message exactly when no line yields a sample; otherwise it returns the
      categorized series, a time range spanning every sample, and the sample count,
      which is also the number of points in the groups. */
  method ParseJsonl(content: string, decode: string -> Option<Sample>) returns (r: Result<ParsedMetrics, string>)
    ensures r.Failure? <==> DecodeAll(Lines(content), decode) == []
    ensures r.Failure? ==> r.error == NoMetricsError
    ensures r.Success? ==>
              var samples := DecodeAll(Lines(content), decode);
              && r.value.groups == Categorized(Assembled(samples))
              && r.value.totalSamples == |samples|
              && GroupPointCount(r.value.groups) == r.value.totalSamples
              && (forall x :: x in samples ==> r.value.timeRange.start <= x.timestamp <= r.value.timeRange.end)
              && (exists x :: x in samples && x.timestamp == r.value.timeRange.start)
              && (exists x :: x in samples && x.timestamp == r.value.timeRange.end)
  {
    var lines := Split(Trim(content), '\n');
    var samples := DecodeLines(lines, decode);
    if |samples| == 0 {
      return Failure(NoMetricsError);
    }
    var series := AssembleSeries(samples);
    var groups := CategorizeMetrics(series);
    var range := TimeRangeOf(samples);
    CategorizedPoints(series);
    AssembledPointCount(samples);
    r := Success(ParsedMetrics(groups, range, |samples|));
  }

  // ---------------------------------------------------------------------------
  // Rates
  // ---------------------------------------------------------------------------

  /** The rate point for the step from `prev` to `curr`: present only when time moves
      forward and the counter does not decrease; the value is per second. */
  function RateStep(prev: Point, curr: Point): (ps: seq<Point>)
    ensures |ps| <= 1
  {
    var timeDiff := (curr.timestamp - prev.timestamp) as real / 1000.0;
    var valueDiff := curr.value - prev.value;
    if timeDiff > 0.0 && valueDiff >= 0.0 then [Point(curr.timestamp, valueDiff / timeDiff)] else []
  }

  /** The rate points of consecutive pairs of `data`, in order. */
  function RatePoints(data: seq<Point>): seq<Point> {
    if |data| < 2 then []
    else RatePoints(data[..|data| - 1]) + RateStep(data[|data| - 2], data[|data| - 1])
  }

  /** `calculateRate`: no rate for a series that is not a counter or has fewer than
      two points; otherwise a gauge named `<name>_rate` with the same labels. */
  method CalculateRate(series: Series) returns (r: Option<Series>)
    ensures r.None? <==> series.kind != Counter || |series.data| < 2
    ensures r.Some? ==> r.value == Series(series.name + "_rate", Gauge, series.labels, RatePoints(series.data))
  {
    if series.kind != Counter || |series.data| < 2 {
      return None;
    }
    var rateData: seq<Point> := [];
    for i := 1 to |series.data|
      invariant rateData == RatePoints(series.data[..i])
    {
      var prev, curr := series.data[i - 1], series.data[i];
      var timeDiff := (curr.timestamp - prev.timestamp) as real / 1000.0;
      var valueDiff := curr.value - prev.value;
      assert series.data[..i + 1][..i] == series.data[..i];
      if timeDiff > 0.0 && valueDiff >= 0.0 {
        rateData := rateData + [Point(curr.timestamp, valueDiff / timeDiff)];
      }
    }
    assert series.data[..|series.data|] == series.data;
    r := Some(Series(series.name + "_rate", Gauge, series.labels, rateData));
  }

  /** The increase per second from `prev` to `curr`. */
  function RateValue(prev: Point, curr: Point): real
    requires curr.timestamp > prev.timestamp
  {
    (curr.value - prev.value) / ((curr.timestamp - prev.timestamp) as real / 1000.0)
  }

  /** The per-second rate times the gap in seconds is the increase; it is never
      negative when the value does not fall. */
  lemma RateValueScaled(prev: Point, curr: Point)
    requires curr.timestamp > prev.timestamp
    ensures RateValue(prev, curr) * ((curr.timestamp - prev.timestamp) as real / 1000.0) == curr.value - prev.value
    ensures curr.value >= prev.value ==> RateValue(prev, curr) >= 0.0
  {
  }

  /** Step `i` (from point i-1 to point i) moves forward in time without a fall in value,
      and `p` sits at its later timestamp with the increase per second as value. */
  predicate RateAt(data: seq<Point>, i: int, p: Point) {
    1 <= i < |data|
    && data[i].timestamp > data[i - 1].timestamp
    && data[i].value >= data[i - 1].value
    && p == Point(data[i].timestamp, RateValue(data[i - 1], data[i]))
  }

  /** The step from the last-but-one to the last point yields `p` exactly when `RateAt`
      holds there. */
  lemma RateStepAt(data: seq<Point>, p: Point)
    requires |data| >= 2
    ensures p in RateStep(data[|data| - 2], data[|data| - 1]) <==> RateAt(data, |data| - 1, p)
  {
  }

  /** A rate point is produced exactly for the steps where the timestamp grows and the
      value does not fall; it sits at the later timestamp and its value is the increase
      per second. */
  lemma {:induction false} RatePointsMembership(data: seq<Point>, p: Point)
    ensures p in RatePoints(data) <==> exists i :: RateAt(data, i, p)
  {
    if |data| >= 2 {
      var n := |data| - 1;
      var init := data[..n];
      RatePointsMembership(init, p);
      RateStepAt(data, p);
      assert init[n - 1] == data[n - 1];
      assert RatePoints(data) == RatePoints(init) + RateStep(data[n - 1], data[n]);
      if exists i :: RateAt(init, i, p) {
        var i :| RateAt(init, i, p);
        assert init[i] == data[i] && init[i - 1] == data[i - 1];
        assert RateAt(data, i, p);
      }
      if exists i :: RateAt(data, i, p) {
        var i :| RateAt(data, i, p);
        if i < n {
          assert init[i] == data[i] && init[i - 1] == data[i - 1];
          assert RateAt(init, i, p);
        }
      }
    }
  }

  /** There is at most one rate point per step, and no rate is negative. */
  lemma {:induction false} RatePointsBounds(data: seq<Point>)
    ensures |data| >= 1 ==> |RatePoints(data)| <= |data| - 1
    ensures forall p :: p in RatePoints(data) ==> p.value >= 0.0
  {
    if |data| >= 2 {
      RatePointsBounds(data[..|data| - 1]);
    }
  }

  /** Over points sorted by time, the rate points are strictly increasing in time. */
  lemma {:induction false} RatePointsIncreasing(data: seq<Point>)
    requires SortedBy(data, PointTime)
    ensures forall i, j :: 0 <= i < j < |RatePoints(data)| ==> RatePoints(data)[i].timestamp < RatePoints(data)[j].timestamp
    ensures forall p :: p in RatePoints(data) ==> |data| >= 2 && p.timestamp <= data[|data| - 1].timestamp
  {
    if |data| >= 2 {
      var n := |data| - 1;
      var init := data[..n];
      assert SortedBy(init, PointTime) by {
        forall i, j | 0 <= i < j < |init| ensures PointTime(init[i]) <= PointTime(init[j]) {
          assert init[i] == data[i] && init[j] == data[j];
        }
      }
      RatePointsIncreasing(init);
      assert init[n - 1] == data[n - 1];
      assert PointTime(data[n - 1]) <= PointTime(data[n]);
      var ri := RatePoints(init);
      var step := RateStep(data[n - 1], data[n]);
      var rs := RatePoints(data);
      assert rs == ri + step && |step| <= 1;
      forall p | p in ri ensures p.timestamp <= data[n - 1].timestamp {
      }
      forall p | p in step ensures p.timestamp == data[n].timestamp && data[n - 1].timestamp < data[n].timestamp {
      }
      forall i, j | 0 <= i < j < |rs| ensures rs[i].timestamp < rs[j].timestamp {
        if j < |ri| {
          assert rs[i] == ri[i] && rs[j] == ri[j];
          assert ri[i].timestamp < ri[j].timestamp;
        } else {
          assert i < |ri|;
          assert rs[i] == ri[i] && ri[i] in ri;
          assert rs[j] == step[j - |ri|] && step[j - |ri|] in step;
          assert rs[i].timestamp <= data[n - 1].timestamp;
          assert rs[j].timestamp == data[n].timestamp;
        }
      }
      forall p | p in rs ensures p.timestamp <= data[n].timestamp {
        assert p in ri || p in step;
      }
    }
  }
}
