/**
  Per-site results of an instance: the absorbing sites of the target
  element, the spectrum file expected for each site and polarisation, the
  graph node of each site, and the intensity series accumulated over the
  files that were found.
*/
module Results {

  import opened Text
  import opened Workflow

  /** How many atoms of the structure carry the symbol `element`. */
  function CountOf(symbols: seq<string>, element: string): nat {
    if symbols == [] then 0
    else CountOf(symbols[..|symbols| - 1], element) + (if symbols[|symbols| - 1] == element then 1 else 0)
  }

  /** The site ids 1, 2, ..., k that `_get_element_order` hands out. */
  function SiteIds(k: nat): seq<int> {
    if k == 0 then [] else SiteIds(k - 1) + [k]
  }

  /** A sequence is `SiteIds(k)` iff it holds k ids numbered from 1. */
  lemma {:induction false} SiteIdsAt(ids: seq<int>, k: nat)
    ensures ids == SiteIds(k) <==> |ids| == k && forall i :: 0 <= i < k ==> ids[i] == i + 1
    decreases k
  {
    if k > 0 {
      SiteIdsAt(SiteIds(k - 1), k - 1);
      if |ids| == k && forall i :: 0 <= i < k ==> ids[i] == i + 1 {
        SiteIdsAt(ids[..k - 1], k - 1);
        assert ids == ids[..k - 1] + [ids[k - 1]];
      }
    }
  }

  /** `_adjust_zeros`: numbers above 9 as they print, the others behind a '0'. */
  function AdjustZeros(number: int): (r: string)
    ensures |r| >= 2
    ensures 0 <= number <= 9 ==> r == ['0', DigitChar(number)]
    ensures number > 9 ==> r[0] != '0'
    ensures number <= 9 ==> r[0] == '0'
  {
    if number > 9 then
      NatToStringRoundTrip(number);
      IntToString(number)
    else
      "0" + IntToString(number)
  }

  /** A padded site number is made of digits and reads back as the number. */
  lemma AdjustZerosValue(number: nat)
    ensures AllDigits(AdjustZeros(number)) && DigitsValue(AdjustZeros(number)) == number
  {
    NatToStringRoundTrip(number);
    if number <= 9 {
      LeadingZeroValue(IntToString(number));
    }
  }

  /** Distinct site numbers give distinct padded numbers. */
  lemma AdjustZerosInjective(a: int, b: int)
    requires AdjustZeros(a) == AdjustZeros(b)
    ensures a == b
  {
    if a > 9 && b > 9 {
      IntToStringInjective(a, b);
    } else if a <= 9 && b <= 9 {
      assert IntToString(a) == AdjustZeros(a)[1..];
      assert IntToString(b) == AdjustZeros(b)[1..];
      IntToStringInjective(a, b);
    }
  }

  /** `_edge_short`: the core level of the edge, 1s for a K edge and 2p for
      every other edge. */
  function EdgeShort(edge: string): (r: string)
    ensures r == "1s" <==> edge == "K"
    ensures r == "1s" || r == "2p"
  {
    if edge == "K" then "1s" else "2p"
  }

  /** Everything a file or node name of one instance is built from. */
  datatype Naming = Naming(localDir: string, instance: string, element: string, edge: string)

  /** The spectrum file of a site and polarisation,
      `{local_dir}/results//absspct_{element}.00{site:02}_{1s|2p}_0{pol}`
      (`_adjust_element` gives the element back unchanged for every edge). */
  function SpectrumFile(n: Naming, site: int, pol: int): string {
    SpectrumPrefix(n) + AdjustZeros(site) + "_" + PolSuffix(n.edge, pol)
  }

  function SpectrumPrefix(n: Naming): string {
    n.localDir + "/results//absspct_" + n.element + ".00"
  }

  function PolSuffix(edge: string, pol: int): string {
    EdgeShort(edge) + "_0" + IntToString(pol)
  }

  /** The graph node of a site, `{name}-{edge}-{element}-{site}`. */
  function SiteNode(n: Naming, site: int): string {
    n.instance + "-" + n.edge + "-" + n.element + "-" + IntToString(site)
  }

  lemma CancelPrefix(p: string, u: string, v: string)
    requires p + u == p + v
    ensures u == v
  {
    assert u == (p + u)[|p|..];
    assert v == (p + v)[|p|..];
  }

  /** Distinct sites have distinct nodes. */
  lemma SiteNodeInjective(n: Naming, a: int, b: int)
    requires SiteNode(n, a) == SiteNode(n, b)
    ensures a == b
  {
    CancelPrefix(n.instance + "-" + n.edge + "-" + n.element + "-", IntToString(a), IntToString(b));
    IntToStringInjective(a, b);
  }

  predicate NoUnderscore(s: string) {
    forall i :: 0 <= i < |s| ==> s[i] != '_'
  }

  lemma AdjustZerosNoUnderscore(site: int)
    ensures NoUnderscore(AdjustZeros(site))
  {
    var s := AdjustZeros(site);
    if site < 0 {
      assert s == "0" + ("-" + NatToString(-site));
      assert forall i :: 2 <= i < |s| ==> s[i] == NatToString(-site)[i - 2];
    }
  }

  /** In `x + "_" + u`, with `x` free of '_', the first '_' is at |x|. */
  lemma FirstUnderscore(x: string, u: string)
    requires NoUnderscore(x)
    ensures (x + ("_" + u))[|x|] == '_'
    ensures forall i :: 0 <= i < |x| ==> (x + ("_" + u))[i] != '_'
  {
  }

  /** Splitting at the first separator: parts free of it are recovered. */
  lemma SplitAtUnderscore(x: string, y: string, u: string, v: string)
    requires NoUnderscore(x) && NoUnderscore(y)
    requires x + ("_" + u) == y + ("_" + v)
    ensures x == y && u == v
  {
    var l := x + ("_" + u);
    FirstUnderscore(x, u);
    FirstUnderscore(y, v);
    assert |x| == |y|;
    assert x == l[..|x|] && y == l[..|y|];
    assert u == l[|x| + 1..] && v == l[|y| + 1..];
  }

  lemma Reassociate(a: string, b: string, c: string, d: string)
    ensures a + b + c + d == a + (b + (c + d))
  {
  }

  /** The spectrum file split at the separator that ends the site number. */
  lemma SpectrumFileShape(n: Naming, site: int, pol: int)
    ensures SpectrumFile(n, site, pol)
         == SpectrumPrefix(n) + (AdjustZeros(site) + ("_" + PolSuffix(n.edge, pol)))
  {
    Reassociate(SpectrumPrefix(n), AdjustZeros(site), "_", PolSuffix(n.edge, pol));
  }

  /** Distinct (site, polarisation) pairs read distinct files. */
  lemma SpectrumFileInjective(n: Naming, s1: int, p1: int, s2: int, p2: int)
    requires SpectrumFile(n, s1, p1) == SpectrumFile(n, s2, p2)
    ensures s1 == s2 && p1 == p2
  {
    SpectrumFileShape(n, s1, p1);
    SpectrumFileShape(n, s2, p2);
    CancelPrefix(SpectrumPrefix(n), AdjustZeros(s1) + ("_" + PolSuffix(n.edge, p1)),
                 AdjustZeros(s2) + ("_" + PolSuffix(n.edge, p2)));
    AdjustZerosNoUnderscore(s1);
    AdjustZerosNoUnderscore(s2);
    SplitAtUnderscore(AdjustZeros(s1), AdjustZeros(s2), PolSuffix(n.edge, p1), PolSuffix(n.edge, p2));
    AdjustZerosInjective(s1, s2);
    CancelPrefix(EdgeShort(n.edge) + "_0", IntToString(p1), IntToString(p2));
    IntToStringInjective(p1, p2);
  }

  /** The accumulated intensity: the integer 0 until a first file is added,
      then a series. */
  datatype Spectrum = Scalar(v: int) | Series(values: seq<int>)

  /** All files hold intensity series of one common length. */
  predicate SameWidth(files: map<string, seq<int>>) {
    forall f, g :: f in files && g in files ==> |files[f]| == |files[g]|
  }

  /** `y += data[1]`: adds a series element-wise (0 plus a series is the series). */
  function AddSeries(y: Spectrum, s: seq<int>): (r: Spectrum)
    requires y.Series? ==> |y.values| == |s|
    ensures r.Series? && |r.values| == |s|
  {
    match y
    case Scalar(c) => Series(seq(|s|, k requires 0 <= k < |s| => c + s[k]))
    case Series(a) => Series(seq(|s|, k requires 0 <= k < |s| => a[k] + s[k]))
  }

  /** The spectrum files of one site, one per polarisation, in order. */
  function SiteFiles(n: Naming, site: int, pols: seq<int>): (r: seq<string>)
    ensures |r| == |pols|
  {
    seq(|pols|, k requires 0 <= k < |pols| => SpectrumFile(n, site, pols[k]))
  }

  /** Every file the plot loop tries, in loop order: the sites in order and,
      for each, the polarisations in order. */
  function VisitedFiles(n: Naming, sites: seq<int>, pols: seq<int>): seq<string> {
    if sites == [] then [] else VisitedFiles(n, sites[..|sites| - 1], pols) + SiteFiles(n, sites[|sites| - 1], pols)
  }

  /** The files are tried site by site: the file of site `i` and
      polarisation `j` (see SiteFilesAt) is tried at position i * |pols| + j. */
  lemma {:induction false} VisitedFilesAt(n: Naming, sites: seq<int>, pols: seq<int>, i: int, j: int)
    requires 0 <= i < |sites| && 0 <= j < |pols|
    ensures |VisitedFiles(n, sites, pols)| == |sites| * |pols|
    ensures i * |pols| + j < |VisitedFiles(n, sites, pols)|
    ensures VisitedFiles(n, sites, pols)[i * |pols| + j] == SiteFiles(n, sites[i], pols)[j]
  {
    var init := sites[..|sites| - 1];
    var head := VisitedFiles(n, init, pols);
    var last := SiteFiles(n, sites[|sites| - 1], pols);
    var k := i * |pols| + j;
    VisitedFilesLength(n, init, pols);
    Position(i, |init|, j, |pols|);
    assert VisitedFiles(n, sites, pols) == head + last;
    if i < |init| {
      assert k < |head|;
      VisitedFilesAt(n, init, pols, i, j);
      assert init[i] == sites[i];
      assert (head + last)[k] == head[k];
    } else {
      assert k - |head| == j;
      assert (head + last)[k] == last[j];
    }
  }

  /** Position `i * p + j` of a `count`-by-`p` table lies in row `i`. */
  lemma Position(i: nat, count: nat, j: nat, p: nat)
    requires i <= count && j < p
    ensures (count + 1) * p == count * p + p
    ensures i < count ==> i * p + j < count * p
    ensures i == count ==> i * p + j - count * p == j
  {
    if i < count {
      assert (i + 1) * p <= count * p;
    }
  }

  lemma {:induction false} VisitedFilesLength(n: Naming, sites: seq<int>, pols: seq<int>)
    ensures |VisitedFiles(n, sites, pols)| == |sites| * |pols|
  {
    if sites != [] {
      VisitedFilesLength(n, sites[..|sites| - 1], pols);
      assert |sites| * |pols| == (|sites| - 1) * |pols| + |pols|;
    }
  }

  /** The intensity accumulated over the tried files that exist. */
  function Accumulate(files: map<string, seq<int>>, tried: seq<string>): (r: Spectrum)
    requires SameWidth(files)
    ensures r.Scalar? ==> r.v == 0
    ensures r.Series? ==> forall f :: f in files ==> |files[f]| == |r.values|
  {
    if tried == [] then Scalar(0)
    else
      var y := Accumulate(files, tried[..|tried| - 1]);
      var f := tried[|tried| - 1];
      if f in files then AddSeries(y, files[f]) else y
  }

  /** One more tried file adds its series when the file exists. */
  lemma AccumulateSnoc(files: map<string, seq<int>>, tried: seq<string>, f: string)
    requires SameWidth(files)
    ensures Accumulate(files, tried + [f]) ==
      if f in files then AddSeries(Accumulate(files, tried), files[f]) else Accumulate(files, tried)
  {
    assert (tried + [f])[..|tried|] == tried;
  }

  /** Whether some tried file exists. */
  predicate AnyFound(files: map<string, seq<int>>, tried: seq<string>) {
    exists i :: 0 <= i < |tried| && tried[i] in files
  }

  /** Column `k` summed over the tried files that exist. */
  function SumAt(files: map<string, seq<int>>, tried: seq<string>, k: nat): int {
    if tried == [] then 0
    else
      var f := tried[|tried| - 1];
      SumAt(files, tried[..|tried| - 1], k) + (if f in files && k < |files[f]| then files[f][k] else 0)
  }

  /** A file sequence has a found file iff its prefix has one or its last
      file exists. */
  lemma AnyFoundSnoc(files: map<string, seq<int>>, tried: seq<string>)
    requires tried != []
    ensures AnyFound(files, tried) <==> AnyFound(files, tried[..|tried| - 1]) || tried[|tried| - 1] in files
  {
    var init := tried[..|tried| - 1];
    assert forall i :: 0 <= i < |init| ==> init[i] == tried[i];
  }

  /** The accumulated intensity is still the integer 0 exactly when no
      tried file exists. */
  lemma {:induction false} AccumulateSeries(files: map<string, seq<int>>, tried: seq<string>)
    requires SameWidth(files)
    ensures Accumulate(files, tried).Series? <==> AnyFound(files, tried)
  {
    if tried != [] {
      AccumulateSeries(files, tried[..|tried| - 1]);
      AnyFoundSnoc(files, tried);
    }
  }

  lemma {:induction false} SumAtNone(files: map<string, seq<int>>, tried: seq<string>, k: nat)
    requires !AnyFound(files, tried)
    ensures SumAt(files, tried, k) == 0
  {
    if tried != [] {
      AnyFoundSnoc(files, tried);
      SumAtNone(files, tried[..|tried| - 1], k);
    }
  }

  /** Once a file has been found, the accumulated intensity is the
      element-wise sum of the series of every file found. */
  lemma {:induction false} AccumulateIsSum(files: map<string, seq<int>>, tried: seq<string>, k: nat)
    requires SameWidth(files)
    requires Accumulate(files, tried).Series? && k < |Accumulate(files, tried).values|
    ensures Accumulate(files, tried).values[k] == SumAt(files, tried, k)
  {
    var init := tried[..|tried| - 1];
    var f := tried[|tried| - 1];
    var y := Accumulate(files, init);
    if y.Series? {
      AccumulateIsSum(files, init, k);
    } else if f in files {
      AccumulateSeries(files, init);
      SumAtNone(files, init, k);
    }
  }

  /** The state a site node ends in: active iff the last of its files
      exists. */
  function FinalState(files: map<string, seq<int>>, siteFiles: seq<string>): NodeState
    requires siteFiles != []
  {
    if siteFiles[|siteFiles| - 1] in files then Active else Inactive
  }

  /** The file tried for polarisation `k` of a site. */
  lemma SiteFilesAt(n: Naming, site: int, pols: seq<int>, k: nat)
    requires k < |pols|
    ensures SiteFiles(n, site, pols)[k] == SpectrumFile(n, site, pols[k])
  {
  }

  /** The graph's nodes after the plot loop over `sites`: the node of each
      site, when it exists, holds the site's final state. */
  function MarkSites(nodes: map<string, NodeState>, files: map<string, seq<int>>, n: Naming, sites: seq<int>, pols: seq<int>): (r: map<string, NodeState>)
    requires pols != []
    ensures r.Keys == nodes.Keys
  {
    if sites == [] then nodes
    else
      Mark(MarkSites(nodes, files, n, sites[..|sites| - 1], pols), SiteNode(n, sites[|sites| - 1]),
           FinalState(files, SiteFiles(n, sites[|sites| - 1], pols)))
  }

  /** One more site tried appends its files. */
  lemma VisitedFilesSnoc(n: Naming, sites: seq<int>, pols: seq<int>, i: nat)
    requires i < |sites|
    ensures VisitedFiles(n, sites[..i + 1], pols) == VisitedFiles(n, sites[..i], pols) + SiteFiles(n, sites[i], pols)
  {
    assert sites[..i + 1][..i] == sites[..i];
  }

  /** One more site tried marks its node. */
  lemma MarkSitesSnoc(nodes: map<string, NodeState>, files: map<string, seq<int>>, n: Naming, sites: seq<int>, pols: seq<int>, i: nat)
    requires pols != [] && i < |sites|
    ensures MarkSites(nodes, files, n, sites[..i + 1], pols)
         == Mark(MarkSites(nodes, files, n, sites[..i], pols), SiteNode(n, sites[i]), FinalState(files, SiteFiles(n, sites[i], pols)))
  {
    assert sites[..i + 1][..i] == sites[..i];
  }

  /** Every one of `sites` has its node among `nodes`. */
  predicate SitesPresent(nodes: map<string, NodeState>, n: Naming, sites: seq<int>) {
    forall s :: s in sites ==> SiteNode(n, s) in nodes
  }

  /** One more site tried is present iff the earlier ones and its own node are. */
  lemma SitesPresentSnoc(nodes: map<string, NodeState>, n: Naming, sites: seq<int>, i: nat)
    requires i < |sites|
    ensures SitesPresent(nodes, n, sites[..i + 1]) <==> SitesPresent(nodes, n, sites[..i]) && SiteNode(n, sites[i]) in nodes
  {
    assert sites[..i + 1] == sites[..i] + [sites[i]];
  }

  /** Distinct sites have distinct nodes. */
  lemma SiteNodeDistinct(n: Naming, a: int, b: int)
    requires a != b
    ensures SiteNode(n, a) != SiteNode(n, b)
  {
    if SiteNode(n, a) == SiteNode(n, b) {
      SiteNodeInjective(n, a, b);
    }
  }

  /** A visited site's node ends in that site's final state, whichever of
      its visits came last. */
  lemma {:induction false} MarkSitesSite(nodes: map<string, NodeState>, files: map<string, seq<int>>, n: Naming, sites: seq<int>, pols: seq<int>, s: int)
    requires pols != [] && s in sites && SiteNode(n, s) in nodes
    ensures MarkSites(nodes, files, n, sites, pols)[SiteNode(n, s)] == FinalState(files, SiteFiles(n, s, pols))
  {
    var init := sites[..|sites| - 1];
    var last := sites[|sites| - 1];
    if s != last {
      SiteNodeDistinct(n, s, last);
      var i :| 0 <= i < |sites| && sites[i] == s;
      assert init[i] == s;
      MarkSitesSite(nodes, files, n, init, pols, s);
    }
  }

  /** A node that is no visited site's node is untouched. */
  lemma {:induction false} MarkSitesOther(nodes: map<string, NodeState>, files: map<string, seq<int>>, n: Naming, sites: seq<int>, pols: seq<int>, m: string)
    requires pols != [] && m in nodes
    requires forall s :: s in sites ==> SiteNode(n, s) != m
    ensures MarkSites(nodes, files, n, sites, pols)[m] == nodes[m]
  {
    if sites != [] {
      var init := sites[..|sites| - 1];
      assert forall s :: s in init ==> s in sites;
      MarkSitesOther(nodes, files, n, init, pols, m);
    }
  }
}
