/** The two hash-preview pipelines of script.js.

    `DebouncedPreview` is the closure set up on DOMContentLoaded
    (script.js:160-305): a single pending-timer slot that every call clears,
    Web Crypto digests that settle later, and `calculateHashWithFallback`.

    `MemoPreview` is the global version (script.js:398-455): the memo table
    `hashCache`, a 100 ms computation scheduled per cache miss, and the
    idle-time warmer that fills the table for a 50 x 50 window of pairs.

    Timers and promise settlement are explicit events (methods); the event
    order is the caller's to choose. */
module Preview {
  import opened Optional
  import opened Keys
  import opened SimpleHash
  import opened Digest
  import opened Display

  /** `first && second`: both input values non-empty. */
  predicate BothSelected(first: string, second: string) {
    first != "" && second != ""
  }

  /** What `calculateHashWithFallback(text, element)` leaves on the element
      when nothing throws: the library digest when js-sha256 was already
      loaded, else the fallback digest. */
  function FallbackDigest(p: Platform, text: string): string {
    if p.sha256Loaded && p.sha256.Some? && p.sha256.value(text).Returned?
    then p.sha256.value(text).hex
    else SimpleHashOf(text)
  }

  /** The loaded library throws on this text. */
  predicate FallbackThrows(p: Platform, text: string) {
    p.sha256Loaded && p.sha256.Some? && p.sha256.value(text).Threw?
  }

  /** The digest a settled `crypto.subtle.digest` call of the debounced
      pipeline puts on the element. */
  function SettledDigest(p: Platform, text: string): string
    requires p.subtle.Some?
  {
    match p.subtle.value(p.encode(text))
    case Resolved(buffer) => BytesToHex(buffer)
    case Rejected => FallbackDigest(p, text)
  }

  /** Whatever path the debounced pipeline takes, when js-sha256 is not
      loaded the element ends up showing computeHash's value: the settled
      digest with `crypto.subtle`, the fallback without it. */
  lemma SettledIsComputeHash(p: Platform, text: string)
    requires !p.sha256Loaded
    ensures p.subtle.Some? ==> SettledDigest(p, text) == ComputeHash(p, text)
    ensures p.subtle.None? ==> FallbackDigest(p, text) == ComputeHash(p, text)
  {
  }

  /** An even-length input whose digest falls back is always shown as
      valid: the fallback forces its last digit to `f`. */
  lemma EvenFallbackIsValid(p: Platform, text: string)
    requires |text| % 2 == 0
    requires p.subtle.None? || p.subtle.value(p.encode(text)).Rejected?
    ensures ResultView(ComputeHash(p, text)).validHash
  {
    SimpleHashShape(text);
    ValidIffEndsInF(ComputeHash(p, text));
  }

  /** The `valid-hash` flag of a displayed digest is the test "the 64th
      hex digit is f". */
  lemma ResultValidity(p: Platform, text: string)
    requires DigestFits(p, text)
    ensures |ComputeHash(p, text)| == 64
    ensures ResultView(ComputeHash(p, text)).validHash <==> ComputeHash(p, text)[63] == 'f'
  {
    ComputeHashShape(p, text);
    ValidIffEndsInF(ComputeHash(p, text));
  }

  class DebouncedPreview {
    const platform: Platform
    const view: HashDisplay
    /** The key captured by the pending 10 ms timeout, if one is pending. */
    var timer: Option<string>
    /** Keys whose Web Crypto digest was requested and has not settled. */
    var inFlight: seq<string>

    ghost predicate Valid()
      reads this
    {
      inFlight != [] ==> platform.subtle.Some?
    }

    constructor (platform: Platform, view: HashDisplay)
      ensures this.platform == platform && this.view == view
      ensures timer == None && inFlight == [] && Valid()
    {
      this.platform := platform;
      this.view := view;
      timer := None;
      inFlight := [];
    }

    /** `calculateHashWithFallback`: the fallback digest at once, then the
        library digest if js-sha256 is loaded; `threw` reports that the
        library threw. */
    method CalculateWithFallback(text: string) returns (threw: bool)
      modifies view
      ensures threw == FallbackThrows(platform, text)
      ensures view.State() == ResultView(FallbackDigest(platform, text))
    {
      var dummyHash := GenerateSimpleHash(text);
      view.ShowResult(dummyHash);
      threw := false;
      if platform.sha256Loaded && platform.sha256.Some? {
        match platform.sha256.value(text)
        case Returned(properHash) =>
          view.ShowResult(properHash);
        case Threw =>
          threw := true;
      }
    }

    /** `updateHashPreview`: clears the pending timer, then either shows
        the computing state and schedules the key, or shows the
        placeholder. */
    method Update(first: string, second: string)
      requires Valid()
      modifies this, view
      ensures Valid() && inFlight == old(inFlight)
      ensures BothSelected(first, second) ==>
        timer == Some(first + second) &&
        view.html == COMPUTING && view.calculating && view.validHash == old(view.validHash)
      ensures !BothSelected(first, second) ==>
        timer == None && view.State() == View(PLACEHOLDER, false, false)
    {
      timer := None;
      if BothSelected(first, second) {
        view.ShowComputing();
        timer := Some(first + second);
      } else {
        view.ShowPlaceholder();
      }
    }

    /** The 10 ms timeout fires: with Web Crypto the digest is requested,
        without it the fallback runs at once; an exception thrown by the
        library is caught and shown as an error. */
    method FireTimer()
      requires Valid() && timer.Some?
      modifies this, view
      ensures Valid() && timer == None
      ensures platform.subtle.Some? ==>
        inFlight == old(inFlight) + [old(timer).value] && view.State() == old(view.State())
      ensures platform.subtle.None? && !FallbackThrows(platform, old(timer).value) ==>
        inFlight == old(inFlight) && view.State() == ResultView(FallbackDigest(platform, old(timer).value))
      ensures platform.subtle.None? && FallbackThrows(platform, old(timer).value) ==>
        inFlight == old(inFlight) &&
        view.State() == View(CALCULATION_ERROR, false, IsValidHash(SimpleHashOf(old(timer).value)))
    {
      var concat := timer.value;
      timer := None;
      if platform.subtle.Some? {
        inFlight := inFlight + [concat];
      } else {
        var threw := CalculateWithFallback(concat);
        if threw {
          view.ShowError();
        }
      }
    }

    /** The digest requested for `inFlight[n]` settles and its handler
        writes the element, whatever the inputs are now. */
    method Settle(n: nat)
      requires Valid() && n < |inFlight|
      modifies this, view
      ensures Valid() && timer == old(timer)
      ensures inFlight == old(inFlight[..n] + inFlight[n + 1..])
      ensures view.State() == ResultView(SettledDigest(platform, old(inFlight[n])))
    {
      var text := inFlight[n];
      inFlight := inFlight[..n] + inFlight[n + 1..];
      match platform.subtle.value(platform.encode(text))
      case Resolved(hashBuffer) =>
        view.ShowResult(BytesToHex(hashBuffer));
      case Rejected =>
        var _ := CalculateWithFallback(text);
    }
  }

  /** Three input changes before the timer fires: the one computation
      requested is for the last pair. */
  method DebounceCollapses(p: Platform) returns (requested: seq<string>)
    requires p.subtle.Some?
    ensures requested == ["1000" + "1003"]
  {
    var view := new HashDisplay();
    var preview := new DebouncedPreview(p, view);
    preview.Update("1000", "1001");
    preview.Update("1000", "1002");
    preview.Update("1000", "1003");
    preview.FireTimer();
    requested := preview.inFlight;
  }

  /** A digest requested for the pair 1000, 1001 settles after the inputs
      changed to 1000, 1002: its handler overwrites the computing state of
      the new pair with the old pair's digest. */
  method StaleResponseShown(p: Platform) returns (shown: View, scheduled: Option<string>)
    requires p.subtle.Some?
    ensures shown == ResultView(SettledDigest(p, "1000" + "1001"))
    ensures scheduled == Some("1000" + "1002")
  {
    var view := new HashDisplay();
    var preview := new DebouncedPreview(p, view);
    preview.Update("1000", "1001");
    preview.FireTimer();
    preview.Update("1000", "1002");
    preview.Settle(0);
    shown := view.State();
    scheduled := preview.timer;
  }

  /** Every entry of the memo table is computeHash of its own key. */
  ghost predicate Sound(cache: map<string, string>, p: Platform) {
    forall k {:trigger cache[k]} :: k in cache ==> cache[k] == ComputeHash(p, k)
  }

  /** `hashCache[concat]` is truthy: present and not "". */
  predicate IsHit(cache: map<string, string>, key: string) {
    key in cache && cache[key] != ""
  }

  /** In a sound table the truthiness test is plain membership. */
  lemma HitIffCached(cache: map<string, string>, p: Platform, key: string)
    requires Sound(cache, p) && DigestFits(p, key)
    ensures IsHit(cache, key) <==> key in cache
  {
    if key in cache {
      ComputeHashShape(p, key);
    }
  }

  const WARM_LO: nat := 1000
  const WARM_HI: nat := 1050

  /** `${i}${j}` for a pair of the warmer's window. */
  ghost predicate InWarmWindow(k: string) {
    exists i: nat, j: nat :: WARM_LO <= i < WARM_HI && WARM_LO <= j < WARM_HI && k == PairKey(i, j)
  }

  /** Storing `${i}${j}` into a table that held the keys of row i below j
      gives a table holding them up to j. */
  lemma RowGrows(before: map<string, string>, after: map<string, string>, i: nat, j: nat)
    requires forall j': nat :: WARM_LO <= j' < j ==> PairKey(i, j') in before
    requires forall k :: k in before ==> k in after
    requires PairKey(i, j) in after
    ensures forall j': nat :: WARM_LO <= j' < j + 1 ==> PairKey(i, j') in after
  {
  }

  /** Filling row i into a table that held the rows below i gives a table
      holding the rows up to i. */
  lemma RowsGrow(before: map<string, string>, after: map<string, string>, i: nat)
    requires forall i': nat, j: nat :: WARM_LO <= i' < i && WARM_LO <= j < WARM_HI ==> PairKey(i', j) in before
    requires forall k :: k in before ==> k in after
    requires forall j: nat :: WARM_LO <= j < WARM_HI ==> PairKey(i, j) in after
    ensures forall i': nat, j: nat :: WARM_LO <= i' < i + 1 && WARM_LO <= j < WARM_HI ==> PairKey(i', j) in after
  {
  }

  class MemoPreview {
    const platform: Platform
    const view: HashDisplay
    /** `hashCache`. */
    var cache: map<string, string>
    /** Keys whose 100 ms computation is scheduled and not yet done. */
    var pending: seq<string>

    ghost predicate Valid()
      reads this
    {
      Sound(cache, platform)
    }

    constructor (platform: Platform, view: HashDisplay)
      ensures this.platform == platform && this.view == view
      ensures cache == map[] && pending == [] && Valid()
    {
      this.platform := platform;
      this.view := view;
      cache := map[];
      pending := [];
    }

    /** `updateHashPreview`: a hit displays the cached digest at once, a
        miss schedules its computation; no timer is ever cleared. */
    method Update(first: string, second: string)
      requires Valid()
      modifies this, view
      ensures Valid() && cache == old(cache)
      ensures !BothSelected(first, second) ==>
        pending == old(pending) && view.State() == View(PLACEHOLDER, false, false)
      ensures BothSelected(first, second) && IsHit(old(cache), first + second) ==>
        pending == old(pending) &&
        view.State() == ResultView(ComputeHash(platform, first + second))
      ensures BothSelected(first, second) && !IsHit(old(cache), first + second) ==>
        pending == old(pending) + [first + second] &&
        view.html == COMPUTING && view.calculating && view.validHash == old(view.validHash)
    {
      if BothSelected(first, second) {
        view.ShowComputing();
        var concat := first + second;
        if IsHit(cache, concat) {
          view.ShowResult(cache[concat]);
        } else {
          pending := pending + [concat];
        }
      } else {
        view.ShowPlaceholder();
      }
    }

    /** The computation scheduled for `pending[n]` runs: computeHash's
        value is stored under the key and displayed. */
    method RunPending(n: nat)
      requires Valid() && n < |pending|
      modifies this, view
      ensures Valid()
      ensures pending == old(pending[..n] + pending[n + 1..])
      ensures cache == old(cache)[old(pending[n]) := ComputeHash(platform, old(pending[n]))]
      ensures view.State() == ResultView(ComputeHash(platform, old(pending[n])))
    {
      var concat := pending[n];
      pending := pending[..n] + pending[n + 1..];
      var hash := ComputeHash(platform, concat);
      cache := cache[concat := hash];
      view.ShowResult(hash);
    }

    /** `hashCache[key] = hash` with the computeHash value of the key. */
    method Store(key: string)
      requires Valid()
      modifies this
      ensures Valid() && pending == old(pending)
      ensures cache == old(cache)[key := ComputeHash(platform, key)]
      ensures key in cache
      ensures forall k :: k in old(cache) ==> k in cache
      ensures forall k :: k in cache ==> k in old(cache) || k == key
    {
      var hash := ComputeHash(platform, key);
      cache := cache[key := hash];
    }

    /** One row of the warmer: the keys `${i}${j}` for every j of the
        window. */
    method WarmRow(i: nat)
      requires Valid() && WARM_LO <= i < WARM_HI
      modifies this
      ensures Valid() && pending == old(pending)
      ensures forall k :: k in old(cache) ==> k in cache
      ensures forall j: nat :: WARM_LO <= j < WARM_HI ==> PairKey(i, j) in cache
      ensures forall k :: k in cache ==> k in old(cache) || InWarmWindow(k)
    {
      var j := WARM_LO;
      while j < WARM_HI
        invariant WARM_LO <= j <= WARM_HI
        invariant Valid() && pending == old(pending)
        invariant forall k :: k in old(cache) ==> k in cache
        invariant forall j': nat :: WARM_LO <= j' < j ==> PairKey(i, j') in cache
        invariant forall k :: k in cache ==> k in old(cache) || InWarmWindow(k)
      {
        var concat := PairKey(i, j);
        assert InWarmWindow(concat);
        ghost var before := cache;
        Store(concat);
        RowGrows(before, cache, i, j);
        j := j + 1;
      }
    }

    /** `initializeHashPreview` and `precomputeCommonHashes`: with Web
        Crypto and an idle callback, every key of the 50 x 50 window is
        stored with its computeHash value; entries already there stay. */
    method PrecomputeCommonHashes()
      requires Valid()
      modifies this
      ensures Valid() && pending == old(pending)
      ensures forall k :: k in old(cache) ==> k in cache
      ensures platform.subtle.None? || !platform.idleCallback ==> cache == old(cache)
      ensures platform.subtle.Some? && platform.idleCallback ==>
        forall i: nat, j: nat :: WARM_LO <= i < WARM_HI && WARM_LO <= j < WARM_HI ==> PairKey(i, j) in cache
      ensures forall k :: k in cache ==> k in old(cache) || InWarmWindow(k)
    {
      if platform.subtle.None? || !platform.idleCallback {
        return;
      }
      var i := WARM_LO;
      while i < WARM_HI
        invariant WARM_LO <= i <= WARM_HI
        invariant Valid() && pending == old(pending)
        invariant forall k :: k in old(cache) ==> k in cache
        invariant forall i': nat, j: nat :: WARM_LO <= i' < i && WARM_LO <= j < WARM_HI ==> PairKey(i', j) in cache
        invariant forall k :: k in cache ==> k in old(cache) || InWarmWindow(k)
      {
        ghost var before := cache;
        WarmRow(i);
        RowsGrow(before, cache, i);
        i := i + 1;
      }
    }
  }
}
