/**
 * The usage ledger and entitlement flag of src/context/ProContext.js: a per-day
 * counter record, an `isPro` flag, the quota check and the increment, with the
 * key-value store (AsyncStorage) modelled as the two values it holds and each
 * read or write as a success/failure outcome.
 */
module ProContext {
  import opened Wrappers
  import opened Limits

  /** `Date.toDateString()`: only ever compared for equality. */
  type Date = string

  /**
   * A JavaScript value as far as `<`, `+ 1`, `-`, `Math.max` and a JSON round trip
   * see it. Only the record's stray `undefined` slot (see Counter) takes the
   * first three forms.
   */
  datatype JsNumber = Undefined | NaN | Null | Num(n: int)

  /** `x < limit`: undefined and NaN compare false, null compares as 0. */
  function LessThan(x: JsNumber, limit: int): bool
  {
    match x
    case Undefined => false
    case NaN => false
    case Null => 0 < limit
    case Num(n) => n < limit
  }

  /** `x + 1`: undefined becomes NaN, null counts as 0. */
  function PlusOne(x: JsNumber): JsNumber
  {
    match x
    case Undefined => NaN
    case NaN => NaN
    case Null => Num(1)
    case Num(n) => Num(n + 1)
  }

  /** `Math.max(0, limit - x)`. */
  function RemainingOf(limit: int, x: JsNumber): JsNumber
  {
    match x
    case Undefined => NaN
    case NaN => NaN
    case Null => Num(if limit > 0 then limit else 0)
    case Num(n) => Num(if limit - n > 0 then limit - n else 0)
  }

  /** `JSON.parse(JSON.stringify(x))` for a property value: NaN is written as null. */
  function JsonRoundTrip(x: JsNumber): JsNumber
  {
    if x.NaN? then Null else x
  }

  /** The four counter names of the usage record. */
  datatype CounterKey = ImagesToPdfKey | PdfToImagesKey | MergePdfsKey | SplitPdfKey

  /** `featureToUsageKey[f]`: only four features have a counter; None is `undefined`. */
  function FeatureToUsageKey(f: Feature): (k: Option<CounterKey>)
    ensures k.None? <==> f in {CompressPdf, RotatePdf, DeletePages}
  {
    match f
    case ImagesToPdf => Some(ImagesToPdfKey)
    case PdfToImages => Some(PdfToImagesKey)
    case MergePdfs => Some(MergePdfsKey)
    case SplitPdfPages => Some(SplitPdfKey)
    case _ => None
  }

  /**
   * The usage record. `undefinedSlot` is the property named "undefined" that
   * `usage[undefined]` reads and `{...usage, [undefined]: ...}` writes.
   */
  datatype Usage = Usage(
    imagesToPdf: nat,
    pdfToImages: nat,
    mergePdfs: nat,
    splitPdf: nat,
    undefinedSlot: JsNumber,
    lastResetDate: Date)

  /** `getDefaultUsage()` on day `today`. */
  function DefaultUsage(today: Date): (u: Usage)
    ensures u.lastResetDate == today
    ensures forall key :: Counter(u, key) == if key.Some? then Num(0) else Undefined
  {
    Usage(0, 0, 0, 0, Undefined, today)
  }

  /** `usage[key]`. */
  function Counter(u: Usage, key: Option<CounterKey>): JsNumber
  {
    match key
    case None => u.undefinedSlot
    case Some(ImagesToPdfKey) => Num(u.imagesToPdf)
    case Some(PdfToImagesKey) => Num(u.pdfToImages)
    case Some(MergePdfsKey) => Num(u.mergePdfs)
    case Some(SplitPdfKey) => Num(u.splitPdf)
  }

  /** `{...usage, [usageKey]: usage[usageKey] + 1}`. */
  function IncrementedUsage(u: Usage, f: Feature): (r: Usage)
    ensures Counter(r, FeatureToUsageKey(f)) == PlusOne(Counter(u, FeatureToUsageKey(f)))
    ensures forall key :: key != FeatureToUsageKey(f) ==> Counter(r, key) == Counter(u, key)
    ensures r.lastResetDate == u.lastResetDate
  {
    match FeatureToUsageKey(f)
    case None => u.(undefinedSlot := PlusOne(u.undefinedSlot))
    case Some(ImagesToPdfKey) => u.(imagesToPdf := u.imagesToPdf + 1)
    case Some(PdfToImagesKey) => u.(pdfToImages := u.pdfToImages + 1)
    case Some(MergePdfsKey) => u.(mergePdfs := u.mergePdfs + 1)
    case Some(SplitPdfKey) => u.(splitPdf := u.splitPdf + 1)
  }

  /** The record as `JSON.parse(JSON.stringify(u))` gives it back from storage:
      unchanged, except that a NaN in the stray slot comes back as null. */
  function Persisted(u: Usage): (r: Usage)
    ensures forall key: Option<CounterKey> :: key.Some? ==> Counter(r, key) == Counter(u, key)
    ensures r.lastResetDate == u.lastResetDate
    ensures !r.undefinedSlot.NaN?
    ensures !u.undefinedSlot.NaN? ==> r == u
  {
    u.(undefinedSlot := JsonRoundTrip(u.undefinedSlot))
  }

  /** `checkLimit(feature)` for a given flag and record. */
  function CheckLimit(isPro: bool, u: Usage, f: Feature): (ok: bool)
    ensures isPro ==> ok
    ensures !isPro && FeatureToUsageKey(f).Some? ==>
              Counter(u, FeatureToUsageKey(f)).Num? && (ok <==> Counter(u, FeatureToUsageKey(f)).n < FreeLimit(f))
    ensures !isPro && FeatureToUsageKey(f).None? ==>
              (ok <==> u.undefinedSlot.Null? || (u.undefinedSlot.Num? && u.undefinedSlot.n < FreeLimit(f)))
  {
    isPro || LessThan(Counter(u, FeatureToUsageKey(f)), FreeLimit(f))
  }

  /** `getRemainingCount(feature)`: -1 means unlimited. */
  function GetRemainingCount(isPro: bool, u: Usage, f: Feature): (r: JsNumber)
    ensures r == Num(-1) <==> isPro
    ensures !isPro ==> (r.Num? <==> Counter(u, FeatureToUsageKey(f)).Num? || Counter(u, FeatureToUsageKey(f)).Null?)
    ensures !isPro && r.Num? ==> 0 <= r.n && (0 < r.n <==> CheckLimit(false, u, f))
  {
    if isPro then Num(-1) else RemainingOf(FreeLimit(f), Counter(u, FeatureToUsageKey(f)))
  }

  /** The day-rollover rule of the load effect: a record from another day is replaced. */
  function Reconcile(stored: Usage, today: Date): (r: Usage)
    ensures r.lastResetDate == today
    ensures stored.lastResetDate == today ==> r == stored
    ensures stored.lastResetDate != today ==> r == DefaultUsage(today)
  {
    if stored.lastResetDate != today then DefaultUsage(today) else stored
  }

  /** `incrementUsage` applied k times in a row by a free user, every write succeeding. */
  function IncrementTimes(u: Usage, f: Feature, k: nat): Usage
  {
    if k == 0 then u else IncrementedUsage(IncrementTimes(u, f, k - 1), f)
  }

  /** The provider: its two state fields, whether loading has finished, and what
      the key-value store holds under the usage and pro keys. */
  class ProProvider {
    var isPro: bool
    var usage: Usage
    var isLoaded: bool
    var storedUsage: Option<Usage>
    var storedPro: Option<bool>

    /** First render on day `today`, before the load effect has run. */
    constructor (today: Date, savedUsage: Option<Usage>, savedPro: Option<bool>)
      ensures !isPro && usage == DefaultUsage(today) && !isLoaded
      ensures storedUsage == savedUsage && storedPro == savedPro
      ensures savedUsage.None? || savedUsage.value.undefinedSlot == Undefined ==> StraySlotUnset()
    {
      isPro := false;
      usage := DefaultUsage(today);
      isLoaded := false;
      storedUsage := savedUsage;
      storedPro := savedPro;
    }

    /** Neither the record in memory nor the one in storage has a value in the
        stray `undefined` slot. */
    predicate StraySlotUnset()
      reads this
    {
      usage.undefinedSlot == Undefined && (storedUsage.Some? ==> storedUsage.value.undefinedSlot == Undefined)
    }

    /** `checkLimit(feature)`. */
    function Allowed(f: Feature): (allowed: bool)
      reads this
      ensures allowed <==> Remaining(f) == Num(-1) || (Remaining(f).Num? && Remaining(f).n > 0)
    {
      CheckLimit(isPro, usage, f)
    }

    /** `getRemainingCount(feature)`. */
    function Remaining(f: Feature): (r: JsNumber)
      reads this
      ensures r == Num(-1) <==> isPro
      ensures r.Num? ==> r.n >= -1
    {
      GetRemainingCount(isPro, usage, f)
    }

    /**
     * The load effect. `readOk` is whether both storage reads succeed, `writeOk`
     * whether writing the reset record succeeds; a failure is logged and swallowed.
     */
    method LoadData(today: Date, readOk: bool, writeOk: bool)
      modifies this
      ensures isLoaded
      ensures isPro == if readOk && old(storedPro).Some? then old(storedPro).value else old(isPro)
      ensures usage == LoadedUsage(old(usage), if readOk then old(storedUsage) else None, today, writeOk)
      ensures storedUsage ==
        if readOk && old(storedUsage).Some? && old(storedUsage).value.lastResetDate != today && writeOk
        then Some(Persisted(DefaultUsage(today))) else old(storedUsage)
      ensures storedPro == old(storedPro)
      ensures old(StraySlotUnset()) ==> StraySlotUnset()
    {
      if readOk {
        if storedPro.Some? {
          isPro := storedPro.value;
        }
        if storedUsage.Some? {
          var parsed := storedUsage.value;
          if parsed.lastResetDate != today {
            var newUsage := DefaultUsage(today);
            if writeOk {
              storedUsage := Some(Persisted(newUsage));
              usage := newUsage;
            }
          } else {
            usage := parsed;
          }
        }
      }
      isLoaded := true;
    }

    /** `incrementUsage(feature)`: in-memory state changes only after the write succeeds. */
    method IncrementUsage(f: Feature, writeOk: bool)
      modifies this
      ensures isPro == old(isPro) && isLoaded == old(isLoaded) && storedPro == old(storedPro)
      ensures usage == if !old(isPro) && writeOk then IncrementedUsage(old(usage), f) else old(usage)
      ensures storedUsage ==
        if !old(isPro) && writeOk then Some(Persisted(IncrementedUsage(old(usage), f))) else old(storedUsage)
      ensures old(StraySlotUnset()) && FeatureToUsageKey(f).Some? ==> StraySlotUnset()
    {
      if isPro {
        return;
      }
      var newUsage := IncrementedUsage(usage, f);
      if writeOk {
        storedUsage := Some(Persisted(newUsage));
        usage := newUsage;
      }
    }

    /** `setPro(value)`: persist, then update the flag; a failed write changes nothing. */
    method SetPro(value: bool, writeOk: bool)
      modifies this
      ensures isPro == if writeOk then value else old(isPro)
      ensures storedPro == if writeOk then Some(value) else old(storedPro)
      ensures usage == old(usage) && storedUsage == old(storedUsage) && isLoaded == old(isLoaded)
      ensures old(StraySlotUnset()) ==> StraySlotUnset()
    {
      if writeOk {
        storedPro := Some(value);
        isPro := value;
      }
    }
  }

  /** The `usage` state after the load effect, given what was read (None: nothing or a failed read). */
  function LoadedUsage(current: Usage, stored: Option<Usage>, today: Date, writeOk: bool): (r: Usage)
    ensures stored.None? ==> r == current
    ensures stored.Some? && stored.value.lastResetDate == today ==> r == stored.value
    ensures stored.Some? && stored.value.lastResetDate != today ==> r == if writeOk then DefaultUsage(today) else current
  {
    match stored
    case None => current
    case Some(parsed) =>
      if parsed.lastResetDate != today && !writeOk then current else Reconcile(parsed, today)
  }

  /** A pro user passes every check and has unlimited (-1) uses left, whatever the counters. */
  lemma ProIsUnlimited(u: Usage, f: Feature)
    ensures CheckLimit(true, u, f)
    ensures GetRemainingCount(true, u, f) == Num(-1)
  {}

  /** For a free user and a feature with a counter, the check passes iff the counter is below the limit,
      and the remaining count is the distance to the limit, never negative. */
  lemma FreeMappedFeature(u: Usage, f: Feature)
    requires FeatureToUsageKey(f).Some?
    ensures var count := Counter(u, FeatureToUsageKey(f));
      && count.Num?
      && (CheckLimit(false, u, f) <==> count.n < FreeLimit(f))
      && GetRemainingCount(false, u, f) == Num(if FreeLimit(f) > count.n then FreeLimit(f) - count.n else 0)
  {}

  /** COMPRESS_PDF, ROTATE_PDF and DELETE_PAGES have no counter: as long as the stray slot
      holds undefined or NaN (every record the app builds in memory), a free user is
      always refused them and their remaining count is NaN. */
  lemma FreeUnmappedFeature(u: Usage, f: Feature)
    requires f in {CompressPdf, RotatePdf, DeletePages}
    requires u.undefinedSlot == Undefined || u.undefinedSlot == NaN
    ensures !CheckLimit(false, u, f)
    ensures GetRemainingCount(false, u, f) == NaN
  {
    assert FeatureToUsageKey(f) == None;
  }

  /** Only IncrementedUsage puts anything but undefined into the stray slot, and then NaN. */
  lemma StraySlotInMemory(u: Usage, f: Feature)
    requires u.undefinedSlot == Undefined || u.undefinedSlot == NaN
    ensures var r := IncrementedUsage(u, f); r.undefinedSlot == Undefined || r.undefinedSlot == NaN
  {}

  /** The JSON round trip turns that NaN into null, and null compares as 0: after an increment
      of an unmapped feature is persisted and reloaded the same day, the check passes. */
  lemma StraySlotAfterReload(today: Date, f: Feature)
    requires f in {CompressPdf, RotatePdf, DeletePages}
    ensures var inMemory := IncrementedUsage(DefaultUsage(today), f);
      && !CheckLimit(false, inMemory, f)
      && CheckLimit(false, Reconcile(Persisted(inMemory), today), f)
  {
    assert FeatureToUsageKey(f) == None;
  }

  /** Reconciling twice on the same day is reconciling once. */
  lemma ReconcileIdempotent(u: Usage, today: Date)
    ensures Reconcile(Reconcile(u, today), today) == Reconcile(u, today)
  {}

  /** A new day zeroes every counter; the same day keeps them. */
  lemma ReconcileResets(u: Usage, today: Date, key: Option<CounterKey>)
    ensures u.lastResetDate != today ==> Counter(Reconcile(u, today), key) == if key.Some? then Num(0) else Undefined
    ensures u.lastResetDate == today ==> Counter(Reconcile(u, today), key) == Counter(u, key)
  {}

  /** Loading a second time on the same day, from what the first load left in storage,
      gives the same usage as loading once (when the first load's reset write succeeded). */
  lemma LoadTwiceSameDay(current: Usage, stored: Usage, today: Date, secondWriteOk: bool)
    requires stored == Persisted(stored)
    ensures var first := LoadedUsage(current, Some(stored), today, true);
      var storedAfter := if stored.lastResetDate != today then Persisted(DefaultUsage(today)) else stored;
      LoadedUsage(first, Some(storedAfter), today, secondWriteOk) == first
  {}

  lemma {:induction false} IncrementTimesCounter(u: Usage, f: Feature, k: nat)
    requires FeatureToUsageKey(f).Some?
    ensures Counter(IncrementTimes(u, f, k), FeatureToUsageKey(f)).Num?
    ensures Counter(IncrementTimes(u, f, k), FeatureToUsageKey(f)).n == Counter(u, FeatureToUsageKey(f)).n + k
    ensures IncrementTimes(u, f, k).lastResetDate == u.lastResetDate
  {
    if k > 0 {
      IncrementTimesCounter(u, f, k - 1);
    }
  }

  /** From a fresh record, a free user passes the check for a counted feature on exactly
      the first FREE_LIMITS[f] uses of the day: after k increments it passes iff k < limit. */
  lemma FreeDailyQuota(today: Date, f: Feature, k: nat)
    requires FeatureToUsageKey(f).Some?
    ensures CheckLimit(false, IncrementTimes(DefaultUsage(today), f, k), f) <==> k < FreeLimit(f)
  {
    IncrementTimesCounter(DefaultUsage(today), f, k);
  }
}
