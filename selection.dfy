/**
 * Choice of the artifact to list or download, from the bucket listing: the
 * scan over the listing that collects the compatible keys and the key with
 * the highest build number, the recency fallback over the whole listing, and
 * the marking of the winner in the printed list.
 *
 * The specification functions take the classification of keys as a
 * parameter `c`; the scan itself works on a `Matcher` and is proved against
 * them with `c == Classification(m)`.
 */
module Selection {
  import opened Wrappers
  import opened BuildNumbers
  import opened ObjectKeys

  /** One entry of the bucket listing: its key and its LastModified time. */
  datatype Object = Object(key: string, lastModified: int)

  /**
   * The compiled key expression, seen only through the two questions the
   * scan asks of it: does it match a basename, and what does
   * `ReplaceAllString(basename, "${buildnum}")` give for a matching one.
   */
  datatype Matcher = Matcher(matches: string -> bool, buildText: string -> string)

  /** What the scan makes of one key. */
  datatype Build =
    | NoMatch            // the basename does not match
    | EmptyCapture       // it matches and the build text is empty
    | Unparsable         // it matches and Atoi rejects the build text
    | Number(n: int)     // it matches and the build text parses to n

  function Classify(m: Matcher, key: string): (b: Build)
    ensures b == NoMatch <==> !m.matches(Basename(key))
    ensures b == EmptyCapture <==> m.matches(Basename(key)) && m.buildText(Basename(key)) == ""
    ensures b == Unparsable <==>
      m.matches(Basename(key)) && m.buildText(Basename(key)) != "" && Atoi(m.buildText(Basename(key))).Failure?
    ensures b.Number? ==>
      m.matches(Basename(key)) && m.buildText(Basename(key)) != "" && Atoi(m.buildText(Basename(key))) == Success(b.n)
  {
    var name := Basename(key);
    if !m.matches(name) then NoMatch
    else
      var text := m.buildText(name);
      if text == "" then EmptyCapture
      else match Atoi(text)
        case Failure(_) => Unparsable
        case Success(n) => Number(n)
  }

  function Classification(m: Matcher): string -> Build
  {
    key => Classify(m, key)
  }

  /** The keys that reach the append of the scan. */
  predicate Compatible(b: Build) {
    b.EmptyCapture? || b.Number?
  }

  /** Build numbers above zero: the only ones that can be adopted. */
  predicate Positive(b: Build) {
    b.Number? && b.n > 0
  }

  /**
   * The compatible keys in listing order: the matching ones, without those
   * whose build text Atoi rejects.
   */
  function CompatibleKeys(c: string -> Build, s: seq<Object>): (r: seq<string>)
    ensures |r| <= |s|
    ensures forall k :: k in r ==> Compatible(c(k))
    ensures forall i :: 0 <= i < |s| && Compatible(c(s[i].key)) ==> s[i].key in r
  {
    if s == [] then []
    else
      var p := CompatibleKeys(c, s[..|s| - 1]);
      var e := s[|s| - 1];
      assert forall i :: 0 <= i < |s| - 1 ==> s[..|s| - 1][i] == s[i];
      if Compatible(c(e.key)) then p + [e.key] else p
  }

  /**
   * A key is listed exactly when it is compatible and occurs in the listing.
   */
  lemma {:induction false} CompatibleKeysMembership(c: string -> Build, s: seq<Object>, k: string)
    ensures k in CompatibleKeys(c, s) <==> Compatible(c(k)) && exists i :: 0 <= i < |s| && s[i].key == k
  {
    if s != [] {
      var p := s[..|s| - 1];
      CompatibleKeysMembership(c, p, k);
      if k in CompatibleKeys(c, s) && k in CompatibleKeys(c, p) {
        var i :| 0 <= i < |p| && p[i].key == k;
        assert s[i].key == k;
      }
    }
  }

  /** The largest build number of the listing, or 0 when none is positive. */
  function MaxBuild(c: string -> Build, s: seq<Object>): (r: int)
    ensures r >= 0
    ensures forall i :: 0 <= i < |s| && c(s[i].key).Number? ==> c(s[i].key).n <= r
    ensures r > 0 ==> exists i :: 0 <= i < |s| && c(s[i].key) == Number(r)
  {
    if s == [] then 0
    else
      var p := MaxBuild(c, s[..|s| - 1]);
      var b := c(s[|s| - 1].key);
      assert forall i :: 0 <= i < |s| - 1 ==> s[..|s| - 1][i] == s[i];
      if b.Number? && b.n > p then b.n else p
  }

  /** The first position whose key is classified as `b`. */
  function FirstIndex(c: string -> Build, s: seq<Object>, b: Build): (r: Option<nat>)
    ensures r.Some? ==> r.value < |s| && c(s[r.value].key) == b
    ensures r.Some? ==> forall i :: 0 <= i < r.value ==> c(s[i].key) != b
    ensures r.None? ==> forall i :: 0 <= i < |s| ==> c(s[i].key) != b
  {
    if s == [] then None
    else
      var p := FirstIndex(c, s[..|s| - 1], b);
      assert forall i :: 0 <= i < |s| - 1 ==> s[..|s| - 1][i] == s[i];
      if p.Some? then p
      else if c(s[|s| - 1].key) == b then Some(|s| - 1)
      else None
  }

  /** The last position whose key is classified as `b`. */
  function LastIndex(c: string -> Build, s: seq<Object>, b: Build): (r: Option<nat>)
    ensures r.Some? ==> r.value < |s| && c(s[r.value].key) == b
    ensures r.Some? ==> forall i :: r.value < i < |s| ==> c(s[i].key) != b
    ensures r.None? ==> forall i :: 0 <= i < |s| ==> c(s[i].key) != b
  {
    if s == [] then None
    else
      var p := LastIndex(c, s[..|s| - 1], b);
      assert forall i :: 0 <= i < |s| - 1 ==> s[..|s| - 1][i] == s[i];
      if c(s[|s| - 1].key) == b then Some(|s| - 1) else p
  }

  /**
   * `maxKey` after the scan: with a positive build number present, the first
   * key that carries the largest one; otherwise the last key whose build
   * text is empty; otherwise "".
   */
  function ScanWinner(c: string -> Build, s: seq<Object>): string
  {
    var top := MaxBuild(c, s);
    if top > 0 then
      match FirstIndex(c, s, Number(top))
      case Some(j) => s[j].key
      case None => ""
    else
      match LastIndex(c, s, EmptyCapture)
      case Some(j) => s[j].key
      case None => ""
  }

  /** How one more key changes the compatible keys. */
  lemma CompatibleKeysStep(c: string -> Build, s: seq<Object>, e: Object)
    ensures CompatibleKeys(c, s + [e]) ==
      (if Compatible(c(e.key)) then CompatibleKeys(c, s) + [e.key] else CompatibleKeys(c, s))
  {
    assert (s + [e])[..|s|] == s;
  }

  /** How one more key changes the best build number. */
  lemma MaxBuildStep(c: string -> Build, s: seq<Object>, e: Object)
    ensures var b, top := c(e.key), MaxBuild(c, s);
      MaxBuild(c, s + [e]) == (if b.Number? && b.n > top then b.n else top)
  {
    assert (s + [e])[..|s|] == s;
  }

  /** How one more key changes the adopted key. */
  lemma ScanWinnerStep(c: string -> Build, s: seq<Object>, e: Object)
    ensures var b, top := c(e.key), MaxBuild(c, s);
      ScanWinner(c, s + [e]) ==
        (if b.Number? && b.n > top then e.key
         else if b.EmptyCapture? && top == 0 then e.key
         else ScanWinner(c, s))
  {
    var b, t, top := c(e.key), s + [e], MaxBuild(c, s);
    MaxBuildStep(c, s, e);
    assert t[|s|] == e;
    if b.Number? && b.n > top {
      FirstIndexStep(c, s, e, Number(b.n));
    } else if top > 0 {
      FirstIndexStep(c, s, e, Number(top));
      var j := FirstIndex(c, s, Number(top)).value;
      assert t[j] == s[j];
    } else {
      LastIndexStep(c, s, e, EmptyCapture);
      if LastIndex(c, s, EmptyCapture).Some? {
        var j := LastIndex(c, s, EmptyCapture).value;
        assert t[j] == s[j];
      }
    }
  }

  lemma FirstIndexStep(c: string -> Build, s: seq<Object>, e: Object, b: Build)
    ensures FirstIndex(c, s + [e], b) ==
      (if FirstIndex(c, s, b).Some? then FirstIndex(c, s, b)
       else if c(e.key) == b then Some(|s|) else None)
  {
    assert (s + [e])[..|s|] == s;
  }

  lemma LastIndexStep(c: string -> Build, s: seq<Object>, e: Object, b: Build)
    ensures LastIndex(c, s + [e], b) == (if c(e.key) == b then Some(|s|) else LastIndex(c, s, b))
  {
    assert (s + [e])[..|s|] == s;
  }

  /** The three variables the scan carries from one key to the next. */
  datatype ScanState = ScanState(compatible: seq<string>, maxBuild: int, maxKey: string)

  /** What one more key, classified as `b`, does to the scan state. */
  function Advance(st: ScanState, key: string, b: Build): ScanState {
    ScanState(
      if Compatible(b) then st.compatible + [key] else st.compatible,
      if b.Number? && b.n > st.maxBuild then b.n else st.maxBuild,
      if b.Number? && b.n > st.maxBuild then key
      else if b.EmptyCapture? && st.maxBuild == 0 then key
      else st.maxKey)
  }

  /** The specification functions of a listing, as a scan state. */
  function Scanned(c: string -> Build, s: seq<Object>): ScanState {
    ScanState(CompatibleKeys(c, s), MaxBuild(c, s), ScanWinner(c, s))
  }

  /** The three step lemmas, stated on one more element of a prefix. */
  lemma PrefixStep(c: string -> Build, s: seq<Object>, i: nat)
    requires i < |s|
    ensures var b, top := c(s[i].key), MaxBuild(c, s[..i]);
      && CompatibleKeys(c, s[..i + 1]) ==
           (if Compatible(b) then CompatibleKeys(c, s[..i]) + [s[i].key] else CompatibleKeys(c, s[..i]))
      && MaxBuild(c, s[..i + 1]) == (if b.Number? && b.n > top then b.n else top)
      && ScanWinner(c, s[..i + 1]) ==
           (if b.Number? && b.n > top then s[i].key
            else if b.EmptyCapture? && top == 0 then s[i].key
            else ScanWinner(c, s[..i]))
  {
    assert s[..i + 1] == s[..i] + [s[i]];
    CompatibleKeysStep(c, s[..i], s[i]);
    MaxBuildStep(c, s[..i], s[i]);
    ScanWinnerStep(c, s[..i], s[i]);
  }

  /** Scanning one more key of a prefix advances the state by that key. */
  lemma ScannedStep(c: string -> Build, s: seq<Object>, i: nat)
    requires i < |s|
    ensures Scanned(c, s[..i + 1]) == Advance(Scanned(c, s[..i]), s[i].key, c(s[i].key))
  {
    PrefixStep(c, s, i);
  }

  /** The compatible keys of two listings in a row are those of each, in order. */
  lemma {:induction false} CompatibleKeysAppend(c: string -> Build, s: seq<Object>, t: seq<Object>)
    ensures CompatibleKeys(c, s + t) == CompatibleKeys(c, s) + CompatibleKeys(c, t)
  {
    if t == [] {
      assert s + t == s;
    } else {
      var u, e := t[..|t| - 1], t[|t| - 1];
      assert t == u + [e];
      assert s + t == (s + u) + [e];
      CompatibleKeysAppend(c, s, u);
      CompatibleKeysStep(c, s + u, e);
      CompatibleKeysStep(c, u, e);
    }
  }

  /**
   * With a positive build number in the listing, the scan adopts the first
   * key that carries the largest build number.
   */
  lemma BuildWinner(c: string -> Build, s: seq<Object>)
    requires exists i :: 0 <= i < |s| && Positive(c(s[i].key))
    ensures MaxBuild(c, s) > 0
    ensures exists j :: (0 <= j < |s| && ScanWinner(c, s) == s[j].key
      && c(s[j].key) == Number(MaxBuild(c, s))
      && (forall i :: 0 <= i < j ==> c(s[i].key) != Number(MaxBuild(c, s))))
  {
  }

  /**
   * With no positive build number in the listing, the scan adopts the LAST
   * key whose build text is empty, and no key at all when there is none.
   */
  lemma EmptyCaptureWinner(c: string -> Build, s: seq<Object>)
    requires forall i :: 0 <= i < |s| ==> !Positive(c(s[i].key))
    ensures MaxBuild(c, s) == 0
    ensures (exists i :: 0 <= i < |s| && c(s[i].key) == EmptyCapture) ==>
      exists j :: 0 <= j < |s| && ScanWinner(c, s) == s[j].key
        && c(s[j].key) == EmptyCapture
        && (forall i :: j < i < |s| ==> c(s[i].key) != EmptyCapture)
    ensures (forall i :: 0 <= i < |s| ==> c(s[i].key) != EmptyCapture) ==> ScanWinner(c, s) == ""
  {
  }

  /** A key the scan adopts is one of the compatible keys. */
  lemma ScanWinnerCompatible(c: string -> Build, s: seq<Object>)
    ensures ScanWinner(c, s) != "" ==> ScanWinner(c, s) in CompatibleKeys(c, s)
  {
  }

  /**
   * Once a positive build number is adopted, later keys with no larger build
   * number (an equal one, an empty build text, an unparsable one or no match)
   * change neither the best build number nor the adopted key.
   */
  lemma {:induction false} WinnerStableAfterBuild(c: string -> Build, s: seq<Object>, t: seq<Object>)
    requires MaxBuild(c, s) > 0
    requires forall i :: 0 <= i < |t| && c(t[i].key).Number? ==> c(t[i].key).n <= MaxBuild(c, s)
    ensures MaxBuild(c, s + t) == MaxBuild(c, s)
    ensures ScanWinner(c, s + t) == ScanWinner(c, s)
  {
    if t == [] {
      assert s + t == s;
    } else {
      var u, e := t[..|t| - 1], t[|t| - 1];
      assert t == u + [e];
      assert s + t == (s + u) + [e];
      assert forall i :: 0 <= i < |u| ==> u[i] == t[i];
      WinnerStableAfterBuild(c, s, u);
      MaxBuildStep(c, s + u, e);
      ScanWinnerStep(c, s + u, e);
    }
  }

  /** Listing the same objects in another order gives the same best build number. */
  lemma MaxBuildOrderIndependent(c: string -> Build, s: seq<Object>, t: seq<Object>)
    requires multiset(s) == multiset(t)
    ensures MaxBuild(c, s) == MaxBuild(c, t)
  {
    MaxBuildBelow(c, s, t);
    MaxBuildBelow(c, t, s);
  }

  lemma MaxBuildBelow(c: string -> Build, s: seq<Object>, t: seq<Object>)
    requires multiset(s) == multiset(t)
    ensures MaxBuild(c, s) <= MaxBuild(c, t)
  {
    if MaxBuild(c, s) > 0 {
      var i :| 0 <= i < |s| && c(s[i].key) == Number(MaxBuild(c, s));
      assert s[i] in multiset(t);
      var j :| 0 <= j < |t| && t[j] == s[i];
      assert c(t[j].key).n <= MaxBuild(c, t);
    }
  }

  /**
   * When a single key carries the largest build number, the listing order
   * does not change the winner.
   */
  lemma UniqueMaxWinnerOrderIndependent(c: string -> Build, s: seq<Object>, t: seq<Object>)
    requires multiset(s) == multiset(t)
    requires MaxBuild(c, s) > 0
    requires forall i, j :: (0 <= i < |s| && 0 <= j < |s| && c(s[i].key) == Number(MaxBuild(c, s))
      && c(s[j].key) == Number(MaxBuild(c, s))) ==> s[i].key == s[j].key
    ensures ScanWinner(c, s) == ScanWinner(c, t)
  {
    MaxBuildOrderIndependent(c, s, t);
    var top := MaxBuild(c, s);
    var js := FirstIndex(c, s, Number(top));
    var jt := FirstIndex(c, t, Number(top));
    var i :| 0 <= i < |s| && c(s[i].key) == Number(top);
    assert js.Some?;
    var w :| 0 <= w < |t| && c(t[w].key) == Number(top);
    assert jt.Some?;
    assert t[jt.value] in multiset(s);
    var k :| 0 <= k < |s| && s[k] == t[jt.value];
  }

  /**
   * A key expression without a build group: every match has an empty build
   * text, so the listed keys are exactly the matching ones ...
   */
  lemma NoBuildGroupListsMatches(m: Matcher, s: seq<Object>, k: string)
    requires forall k :: m.matches(k) ==> m.buildText(k) == ""
    ensures k in CompatibleKeys(Classification(m), s) <==>
      m.matches(Basename(k)) && exists i :: 0 <= i < |s| && s[i].key == k
  {
    NoBuildGroupClassify(m, k);
    CompatibleKeysMembership(Classification(m), s, k);
  }

  /** ... and the scan adopts the last matching key. */
  lemma NoBuildGroupLastMatchWins(m: Matcher, s: seq<Object>)
    requires forall k :: m.matches(k) ==> m.buildText(k) == ""
    ensures MaxBuild(Classification(m), s) == 0
    ensures (exists i :: 0 <= i < |s| && m.matches(Basename(s[i].key))) ==>
      exists j :: (0 <= j < |s| && ScanWinner(Classification(m), s) == s[j].key && m.matches(Basename(s[j].key))
        && (forall i :: j < i < |s| ==> !m.matches(Basename(s[i].key))))
  {
    var c := Classification(m);
    forall i | 0 <= i < |s|
      ensures c(s[i].key) == (if m.matches(Basename(s[i].key)) then EmptyCapture else NoMatch)
    {
      NoBuildGroupClassify(m, s[i].key);
    }
    EmptyCaptureWinner(c, s);
  }

  lemma NoBuildGroupClassify(m: Matcher, k: string)
    requires forall k :: m.matches(k) ==> m.buildText(k) == ""
    ensures Classification(m)(k) == (if m.matches(Basename(k)) then EmptyCapture else NoMatch)
  {
  }

  /**
   * A build text made of digits is never empty; Atoi rejects it exactly when
   * its value exceeds the largest 64-bit integer, and otherwise the build
   * number is that value.
   */
  lemma DigitBuildText(m: Matcher, key: string)
    requires m.matches(Basename(key)) && IsDecimal(m.buildText(Basename(key)))
    ensures Classify(m, key) != EmptyCapture
    ensures Classify(m, key) == Unparsable <==> DecimalValue(m.buildText(Basename(key))) > MaxInt
    ensures Classify(m, key).Number? ==> Classify(m, key).n == DecimalValue(m.buildText(Basename(key)))
  {
    AtoiOfDigits(m.buildText(Basename(key)));
  }

  /**
   * The body of the scan loop of `main` on one key: appends a compatible key
   * and adopts it when its build number exceeds the best so far, or when its
   * build text is empty and no positive build number has been adopted. The
   * early return is the `continue` taken when Atoi rejects the build text.
   */
  method Visit(m: Matcher, key: string, compatible: seq<string>, maxBuild: int, maxKey: string)
    returns (compatible': seq<string>, maxBuild': int, maxKey': string)
    ensures ScanState(compatible', maxBuild', maxKey') ==
            Advance(ScanState(compatible, maxBuild, maxKey), key, Classify(m, key))
  {
    compatible', maxBuild', maxKey' := compatible, maxBuild, maxKey;
    ghost var b := Classify(m, key);
    var basename := Basename(key);
    if m.matches(basename) {
      var buildStr := m.buildText(basename);
      if buildStr == "" {
        assert b == EmptyCapture;
        if maxBuild' == 0 {
          maxBuild' := 0;
          maxKey' := key;
        }
      } else {
        var build := Atoi(buildStr);
        if build.Failure? {
          assert b == Unparsable;
          return;
        }
        assert b == Number(build.value);
        if build.value > maxBuild' {
          maxBuild' := build.value;
          maxKey' := key;
        }
      }
      compatible' := compatible' + [key];
    }
  }

  /** The classification `c` is that of the matcher on `key`. */
  predicate Agrees(c: string -> Build, m: Matcher, key: string) {
    c(key) == Classify(m, key)
  }

  /**
   * The scan loop of `main` over the whole listing: it computes the
   * compatible keys, the best build number and the adopted key, for the
   * classification of the listed keys by the matcher (`Resolve` passes
   * `Classification(m)`).
   */
  method Scan(m: Matcher, ghost c: string -> Build, listing: seq<Object>)
    returns (compatible: seq<string>, maxBuild: int, maxKey: string)
    requires forall i :: 0 <= i < |listing| ==> Agrees(c, m, listing[i].key)
    ensures compatible == CompatibleKeys(c, listing)
    ensures maxBuild == MaxBuild(c, listing)
    ensures maxKey == ScanWinner(c, listing)
  {
    compatible, maxBuild, maxKey := [], 0, "";
    for i := 0 to |listing|
      invariant ScanState(compatible, maxBuild, maxKey) == Scanned(c, listing[..i])
    {
      ScannedStep(c, listing, i);
      assert Agrees(c, m, listing[i].key);
      compatible, maxBuild, maxKey := Visit(m, listing[i].key, compatible, maxBuild, maxKey);
    }
    assert listing[..|listing|] == listing;
  }

  /**
   * The position of the first entry with the latest LastModified: later
   * entries replace it only when strictly later.
   */
  function FirstLatest(s: seq<Object>): (r: nat)
    requires s != []
    ensures r < |s|
    ensures forall i :: 0 <= i < |s| ==> s[i].lastModified <= s[r].lastModified
    ensures forall i :: 0 <= i < r ==> s[i].lastModified < s[r].lastModified
  {
    if |s| == 1 then 0
    else
      var p := FirstLatest(s[..|s| - 1]);
      assert forall i :: 0 <= i < |s| - 1 ==> s[..|s| - 1][i] == s[i];
      if s[|s| - 1].lastModified > s[p].lastModified then |s| - 1 else p
  }

  /** The key the recency fallback picks, or "" for an empty listing. */
  function FallbackWinner(s: seq<Object>): string
  {
    if s == [] then "" else s[FirstLatest(s)].key
  }

  /**
   * The recency loop of `main`, run when the scan adopted no key: over the
   * whole listing, not only the compatible keys.
   */
  method MostRecent(listing: seq<Object>) returns (maxKey: string)
    ensures maxKey == FallbackWinner(listing)
  {
    var mostRecent: Option<int> := None;
    maxKey := "";
    for i := 0 to |listing|
      invariant mostRecent.None? <==> i == 0
      invariant i == 0 ==> maxKey == ""
      invariant i > 0 ==> mostRecent == Some(listing[FirstLatest(listing[..i])].lastModified)
      invariant i > 0 ==> maxKey == listing[FirstLatest(listing[..i])].key
    {
      var obj := listing[i];
      assert listing[..i + 1][..i] == listing[..i];
      if mostRecent.None? || obj.lastModified > mostRecent.value {
        mostRecent := Some(obj.lastModified);
        maxKey := obj.key;
      }
    }
    assert listing[..|listing|] == listing;
  }

  /** What `main` goes on with: no file at all, or the list and the winner. */
  datatype Outcome = NoFilesFound | Resolved(compatible: seq<string>, winner: string)

  function Resolution(c: string -> Build, s: seq<Object>): Outcome
  {
    var scanned := ScanWinner(c, s);
    var winner := if scanned == "" then FallbackWinner(s) else scanned;
    if winner == "" then NoFilesFound else Resolved(CompatibleKeys(c, s), winner)
  }

  /**
   * The outcome lists the compatible keys; its winner is the adopted key
   * when the scan adopted one, and otherwise the first of the most recently
   * modified objects of the whole listing.
   */
  lemma ResolvedWinner(c: string -> Build, s: seq<Object>)
    ensures Resolution(c, s).Resolved? ==> Resolution(c, s).compatible == CompatibleKeys(c, s)
    ensures Resolution(c, s).Resolved? && ScanWinner(c, s) != "" ==>
      Resolution(c, s).winner == ScanWinner(c, s) && ScanWinner(c, s) in CompatibleKeys(c, s)
    ensures Resolution(c, s).Resolved? && ScanWinner(c, s) == "" ==>
      exists j :: (0 <= j < |s| && Resolution(c, s).winner == s[j].key
        && (forall i :: 0 <= i < |s| ==> s[i].lastModified <= s[j].lastModified)
        && (forall i :: 0 <= i < j ==> s[i].lastModified < s[j].lastModified))
  {
    ScanWinnerCompatible(c, s);
    if Resolution(c, s).Resolved? && ScanWinner(c, s) == "" {
      assert s != [];
      var j := FirstLatest(s);
      assert Resolution(c, s).winner == s[j].key;
    }
  }

  /**
   * When no key of the listing is empty, "No files found" is reported
   * exactly for an empty listing.
   */
  lemma NoFilesFoundIffEmpty(c: string -> Build, s: seq<Object>)
    requires forall i :: 0 <= i < |s| ==> s[i].key != ""
    ensures Resolution(c, s) == NoFilesFound <==> s == []
  {
  }

  /**
   * When no key carries a positive build number or an empty build text
   * (every compatible key has build 0 or less, say), the scan adopts nothing
   * and the winner is the recency fallback over the whole listing.
   */
  lemma NoAdoptionFallsBack(c: string -> Build, s: seq<Object>)
    requires forall i :: 0 <= i < |s| ==> !Positive(c(s[i].key)) && c(s[i].key) != EmptyCapture
    ensures ScanWinner(c, s) == ""
    ensures Resolution(c, s) ==
      (if FallbackWinner(s) == "" then NoFilesFound else Resolved(CompatibleKeys(c, s), FallbackWinner(s)))
  {
    EmptyCaptureWinner(c, s);
  }

  /**
   * The fallback winner need not be compatible: with `app-0` carrying build 0
   * and a later, non-matching `other`, `other` is chosen although only
   * `app-0` is listed.
   */
  lemma FallbackOutsideCompatible()
    ensures var c := (k: string) => if k == "app-0" then Number(0) else NoMatch;
      Resolution(c, [Object("app-0", 1), Object("other", 2)]) == Resolved(["app-0"], "other")
  {
    var c := (k: string) => if k == "app-0" then Number(0) else NoMatch;
    var s := [Object("app-0", 1), Object("other", 2)];
    assert "other" != "app-0";
    assert s[..1] == [Object("app-0", 1)];
    NoAdoptionFallsBack(c, s);
    assert CompatibleKeys(c, s[..1]) == ["app-0"];
    assert FirstLatest(s) == 1;
  }

  /** The scan, the recency fallback and the "No files found" check of `main`. */
  method Resolve(m: Matcher, listing: seq<Object>) returns (r: Outcome)
    ensures r == Resolution(Classification(m), listing)
  {
    var compatibleKeys, maxBuild, maxKey := Scan(m, Classification(m), listing);
    if maxKey == "" {
      maxKey := MostRecent(listing);
    }
    if maxKey == "" {
      return NoFilesFound;
    }
    r := Resolved(compatibleKeys, maxKey);
  }

  /**
   * The `list` command: every compatible key in order, after '*' when it is
   * the winner and after ' ' otherwise.
   */
  method ListLines(compatible: seq<string>, winner: string) returns (lines: seq<string>)
    ensures |lines| == |compatible|
    ensures forall i :: 0 <= i < |lines| ==> |lines[i]| == |compatible[i]| + 1 && lines[i][1..] == compatible[i]
    ensures forall i :: 0 <= i < |lines| ==> (lines[i][0] == '*' <==> compatible[i] == winner)
    ensures forall i :: 0 <= i < |lines| ==> lines[i][0] == '*' || lines[i][0] == ' '
  {
    lines := [];
    for i := 0 to |compatible|
      invariant |lines| == i
      invariant forall j :: 0 <= j < i ==> lines[j] == (if compatible[j] == winner then "*" else " ") + compatible[j]
    {
      var key := compatible[i];
      if key == winner {
        lines := lines + ["*" + key];
      } else {
        lines := lines + [" " + key];
      }
    }
  }
}
