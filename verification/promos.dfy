/** Promo-code lookup and the applicability check the promo handler runs on
    both its store and its fallback path. */
module Promos {
  import opened Wrappers
  import opened Text
  import opened Seqs
  import opened Schema
  import opened Fallback

  /** The outcome of the check: the first rule that fails, or the promo. */
  datatype Verdict = PromoNotFound | Inactive | Expired | LimitReached | Applicable(promo: Promo)

  /** `!promo.active` is false only for an `active` flag that is set and true. */
  predicate IsActive(p: Promo) {
    p.active == Some(true)
  }

  /** Expired strictly after `expiresAt`; a promo without one never expires. */
  predicate IsExpired(p: Promo, now: int) {
    p.expiresAt.Some? && now > p.expiresAt.value
  }

  /** A zero or missing `usageLimit` is no cap; a missing `usageCount` counts as 0. */
  predicate LimitHit(p: Promo) {
    p.usageLimit.Some? && p.usageLimit.value != 0 && p.usageCount.GetOr(0) >= p.usageLimit.value
  }

  /** The handler's chain of checks, in its fixed order. */
  function CheckPromo(found: Option<Promo>, now: int): (v: Verdict)
    ensures v == PromoNotFound <==> found.None?
    ensures v == Inactive <==> found.Some? && !IsActive(found.value)
    ensures v == Expired <==> found.Some? && IsActive(found.value) && IsExpired(found.value, now)
    ensures v == LimitReached <==>
              found.Some? && IsActive(found.value) && !IsExpired(found.value, now) && LimitHit(found.value)
    ensures v.Applicable? <==>
              found.Some? && IsActive(found.value) && !IsExpired(found.value, now) && !LimitHit(found.value)
    ensures v.Applicable? ==> v.promo == found.value
  {
    if found.None? then PromoNotFound
    else if !found.value.active.GetOr(false) then Inactive
    else if found.value.expiresAt.Some? && now > found.value.expiresAt.value then Expired
    else if found.value.usageLimit.Some? && found.value.usageLimit.value != 0
            && found.value.usageCount.GetOr(0) >= found.value.usageLimit.value then LimitReached
    else Applicable(found.value)
  }

  /** A promo is still valid at the very instant it expires. */
  lemma ValidAtExpiryInstant(p: Promo)
    requires IsActive(p) && p.expiresAt.Some? && !LimitHit(p)
    ensures CheckPromo(Some(p), p.expiresAt.value) == Applicable(p)
    ensures CheckPromo(Some(p), p.expiresAt.value + 1) == Expired
  {
  }

  /** A usage limit of 0 is no cap at all, whatever the usage count. */
  lemma ZeroLimitIsNoCap(p: Promo, now: int)
    requires IsActive(p) && !IsExpired(p, now) && p.usageLimit == Some(0)
    ensures CheckPromo(Some(p), now) == Applicable(p)
  {
  }

  /** Expiry is reported before the usage limit, and inactivity before both. */
  lemma FailureOrder(p: Promo, now: int)
    requires IsExpired(p, now) && LimitHit(p)
    ensures CheckPromo(Some(p), now) == (if IsActive(p) then Expired else Inactive)
  {
  }

  /** The first promo with exactly this code (`fallbackPromoCodes.find(...)`,
      and the store's `[promo] = select … where code = …`). */
  function FindPromo(ps: seq<Promo>, code: string): (r: Option<Promo>)
    ensures r.Some? ==> r.value in ps && r.value.code == code
    ensures r.None? <==> forall i :: 0 <= i < |ps| ==> ps[i].code != code
  {
    FirstWhere(ps, PromoHasCode(code))
  }

  /** `getPromoByCode`: the store compares against the upper-cased code. */
  function GetPromoByCode(rows: seq<Promo>, code: string): (r: Option<Promo>)
    ensures r.Some? ==> r.value in rows && r.value.code == Upper(code)
    ensures r.None? <==> forall i :: 0 <= i < |rows| ==> rows[i].code != Upper(code)
  {
    FindPromo(rows, Upper(code))
  }

  /** Upper-casing is idempotent, so the handler's own upper-casing before the
      lookup does not change which promo the store finds. */
  lemma LookupIgnoresCallerCase(rows: seq<Promo>, code: string)
    ensures GetPromoByCode(rows, Upper(code)) == GetPromoByCode(rows, code)
  {
    UpperIsUpper(code);
  }

  const PromoNotFoundMessage: string := "Promo code not found"
  const PromoInactiveMessage: string := "Promo code is not active"
  const PromoExpiredMessage: string := "Promo code has expired"
  const PromoLimitMessage: string := "Promo code usage limit reached"

  function VerdictReply(v: Verdict): (r: Reply<Promo>)
    ensures v.Applicable? <==> r.Ok?
    ensures r.Ok? ==> r.body == v.promo
    ensures v == PromoNotFound <==> r.NotFound?
    ensures v == PromoNotFound ==> r == NotFound(PromoNotFoundMessage)
    ensures v == Inactive ==> r == BadRequest(PromoInactiveMessage)
    ensures v == Expired ==> r == BadRequest(PromoExpiredMessage)
    ensures v == LimitReached ==> r == BadRequest(PromoLimitMessage)
  {
    match v
    case PromoNotFound => NotFound(PromoNotFoundMessage)
    case Inactive => BadRequest(PromoInactiveMessage)
    case Expired => BadRequest(PromoExpiredMessage)
    case LimitReached => BadRequest(PromoLimitMessage)
    case Applicable(p) => Ok(p)
  }

  /** The promos the handler searches: the store's, or the fallback promos
      when the store cannot be reached. */
  function PromoRows(store: Option<seq<Promo>>, loadedAt: int): (ps: seq<Promo>)
    ensures store.Some? ==> ps == store.value
    ensures store.None? ==> ps == FallbackPromos(loadedAt)
  {
    if store.Some? then store.value else FallbackPromos(loadedAt)
  }

  /** The promo handler: upper-case the code, look it up in the store (or, when
      the store cannot be reached, in the fallback promos), then run the check.
      `now` is the request time. */
  function ValidatePromo(code: string, store: Option<seq<Promo>>, now: int, loadedAt: int): (r: Reply<Promo>)
    ensures r.Ok? ==> r.body.code == Upper(code) && IsActive(r.body)
                      && !IsExpired(r.body, now) && !LimitHit(r.body)
    ensures r.Ok? && store.Some? ==> r.body in store.value
    ensures r.Ok? && store.None? ==> r.body in FallbackPromos(loadedAt)
    ensures var rows := PromoRows(store, loadedAt);
            r.NotFound? <==> forall i :: 0 <= i < |rows| ==> rows[i].code != Upper(code)
    ensures r.NotFound? ==> r == NotFound(PromoNotFoundMessage)
    ensures var found := FindPromo(PromoRows(store, loadedAt), Upper(code));
            && (r.Ok? <==> found.Some? && IsActive(found.value) && !IsExpired(found.value, now) && !LimitHit(found.value))
            && (found.Some? && !IsActive(found.value) ==> r == BadRequest(PromoInactiveMessage))
            && (found.Some? && IsActive(found.value) && IsExpired(found.value, now) ==>
                  r == BadRequest(PromoExpiredMessage))
            && (found.Some? && IsActive(found.value) && !IsExpired(found.value, now) && LimitHit(found.value) ==>
                  r == BadRequest(PromoLimitMessage))
  {
    var c := Upper(code);
    UpperIsUpper(code);
    var found := if store.Some? then GetPromoByCode(store.value, c) else FindPromo(FallbackPromos(loadedAt), c);
    assert found == FindPromo(PromoRows(store, loadedAt), c);
    VerdictReply(CheckPromo(found, now))
  }

  /** Both branches give the same answer for the same promo data and time. */
  lemma BranchesAgree(code: string, now: int, loadedAt: int)
    ensures ValidatePromo(code, Some(FallbackPromos(loadedAt)), now, loadedAt)
            == ValidatePromo(code, None, now, loadedAt)
  {
    UpperIsUpper(code);
  }
}
