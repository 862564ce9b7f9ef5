/** How much of a transfer is credited to a user: a percentage, which favours of all kinds can only improve. */
module Credits {
  import opened MachineInts
  import opened Results
  import opened Peers

  datatype Group = Group(
    id: int, slug: string, downloadSlots: Option<u32>, isImmune: bool, downloadFactor: u8, uploadFactor: u8)

  /** The user's standing towards the torrent at hand */
  datatype Favours = Favours(
    isDonor: bool, isLifetime: bool, hasPersonalFreeleech: bool, hasFreeleechToken: bool, isFeatured: bool)

  function Offer(o: Option<u8>): seq<u8> {
    match o case Some(f) => [f] case None => []
  }

  /** All upload factors that apply; a lifetime donor has no use for the override of other donors */
  function UploadOffers(c: Config, group: Group, torrentFactor: u8, fav: Favours): seq<u8> {
    [c.uploadFactor, group.uploadFactor, torrentFactor] +
    (if fav.isLifetime then Offer(c.lifetimeDonorUploadFactorOverride)
     else if fav.isDonor then Offer(c.donorUploadFactorOverride)
     else [])
  }

  function DownloadOffers(c: Config, group: Group, torrentFactor: u8, fav: Favours): seq<u8> {
    [c.downloadFactor, group.downloadFactor, torrentFactor] +
    (if fav.isLifetime then Offer(c.lifetimeDonorDownloadFactorOverride)
     else if fav.isDonor then Offer(c.donorDownloadFactorOverride)
     else [])
  }

  predicate IsFreeleech(fav: Favours) {
    fav.hasPersonalFreeleech || fav.hasFreeleechToken || fav.isFeatured
  }

  ghost predicate IsGreatest(f: u8, offers: seq<u8>) {
    f in offers && forall g :: g in offers ==> g <= f
  }

  ghost predicate IsLeast(f: u8, offers: seq<u8>) {
    f in offers && forall g :: g in offers ==> f <= g
  }

  ghost predicate AreFactors(c: Config, group: Group, torrentUpload: u8, torrentDownload: u8, fav: Favours,
                             uploadFactor: u8, downloadFactor: u8) {
    && (if fav.isFeatured then uploadFactor == 200
        else IsGreatest(uploadFactor, UploadOffers(c, group, torrentUpload, fav)))
    && (if IsFreeleech(fav) then downloadFactor == 0
        else IsLeast(downloadFactor, DownloadOffers(c, group, torrentDownload, fav)))
  }

  /** The best of all factors that apply, unless the torrent is featured or the user leeches for free */
  method Factors(c: Config, group: Group, torrentUpload: u8, torrentDownload: u8, fav: Favours)
    returns (uploadFactor: u8, downloadFactor: u8)
    ensures AreFactors(c, group, torrentUpload, torrentDownload, fav, uploadFactor, downloadFactor)
  {
    uploadFactor := Max(c.uploadFactor, Max(group.uploadFactor, torrentUpload));
    downloadFactor := Min(c.downloadFactor, Min(group.downloadFactor, torrentDownload));
    if fav.isLifetime {
      if c.lifetimeDonorUploadFactorOverride.Some? {
        uploadFactor := Max(uploadFactor, c.lifetimeDonorUploadFactorOverride.value);
      }
      if c.lifetimeDonorDownloadFactorOverride.Some? {
        downloadFactor := Min(downloadFactor, c.lifetimeDonorDownloadFactorOverride.value);
      }
    } else if fav.isDonor {
      if c.donorUploadFactorOverride.Some? {
        uploadFactor := Max(uploadFactor, c.donorUploadFactorOverride.value);
      }
      if c.donorDownloadFactorOverride.Some? {
        downloadFactor := Min(downloadFactor, c.donorDownloadFactorOverride.value);
      }
    }
    if fav.hasPersonalFreeleech || fav.hasFreeleechToken || fav.isFeatured {
      downloadFactor := 0;
    }
    if fav.isFeatured {
      uploadFactor := 200;
    }
  }

  /** The override of the user's standing, of which a lifetime donor has its own */
  function OverrideFor(fav: Favours, lifetime: Option<u8>, donor: Option<u8>, none: u8): u8 {
    if fav.isLifetime then lifetime.GetOr(none) else if fav.isDonor then donor.GetOr(none) else none
  }

  /** The upload factor is the greatest of the site's, the group's, the torrent's and the user's override, and 200 on a
      featured torrent; the download factor is the least of them, and 0 under each of the three freeleeches. */
  lemma FactorsAre(c: Config, group: Group, torrentUpload: u8, torrentDownload: u8, fav: Favours, up: u8, down: u8)
    requires AreFactors(c, group, torrentUpload, torrentDownload, fav, up, down)
    ensures up == if fav.isFeatured then 200
                  else Max(Max(c.uploadFactor, group.uploadFactor),
                           Max(torrentUpload, OverrideFor(fav, c.lifetimeDonorUploadFactorOverride,
                                                          c.donorUploadFactorOverride, 0)))
    ensures down == if fav.hasPersonalFreeleech || fav.hasFreeleechToken || fav.isFeatured then 0
                    else Min(Min(c.downloadFactor, group.downloadFactor),
                             Min(torrentDownload, OverrideFor(fav, c.lifetimeDonorDownloadFactorOverride,
                                                              c.donorDownloadFactorOverride, 255)))
  {
    var ups := UploadOffers(c, group, torrentUpload, fav);
    var downs := DownloadOffers(c, group, torrentDownload, fav);
    assert c.uploadFactor == ups[0] && group.uploadFactor == ups[1] && torrentUpload == ups[2];
    assert c.downloadFactor == downs[0] && group.downloadFactor == downs[1] && torrentDownload == downs[2];
    assert |ups| == 4 ==> ups[3] in ups;
    assert |downs| == 4 ==> downs[3] in downs;
    assert ups[0] in ups && ups[1] in ups && ups[2] in ups;
    assert downs[0] in downs && downs[1] in downs && downs[2] in downs;
  }

  /** The part of a transfer that is credited; the product wraps around in a release build */
  function Credited(factor: u8, delta: u64): u64 {
    WrappingMulU64(factor, delta) / 100
  }

  lemma WrappedProduct(factor: u8, delta: u64)
    ensures factor * delta <= U64_MAX ==> WrappingMulU64(factor, delta) == factor * delta
    ensures factor * delta > U64_MAX ==> WrappingMulU64(factor, delta) <= factor * delta - U64_MAX - 1
  {
    var product := factor * delta;
    assert product >= 0;
    var quotient := product / (U64_MAX + 1);
    assert product == quotient * (U64_MAX + 1) + product % (U64_MAX + 1);
  }

  /** The credit is the rounded-down percentage exactly if the product fits 64 bits */
  lemma CreditIsExactIff(factor: u8, delta: u64)
    ensures Credited(factor, delta) == factor * delta / 100 <==> factor * delta <= U64_MAX
  {
    WrappedProduct(factor, delta);
  }

  /** With deltas of at most a 255th of the range no factor can overflow; and a 200 % factor can, beyond half of it */
  lemma CreditsFit(factor: u8, delta: u64)
    ensures delta <= U64_MAX / 255 ==> Credited(factor, delta) == factor * delta / 100
    ensures Credited(200, U64_MAX) != 200 * U64_MAX / 100
  {
    if delta <= U64_MAX / 255 {
      TimesMonotone(factor, 255, delta);
      CreditIsExactIff(factor, delta);
    }
    CreditIsExactIff(200, U64_MAX);
  }

  function Sum(xs: seq<u64>): nat {
    if xs == [] then 0 else xs[0] + Sum(xs[1..])
  }

  function SumCredited(factor: u8, xs: seq<u64>): nat {
    if xs == [] then 0 else Credited(factor, xs[0]) + SumCredited(factor, xs[1..])
  }

  /** A single product, over which induction does not have to look */
  predicate ProductFits(factor: u8, delta: u64) {
    factor * delta <= U64_MAX
  }

  lemma RoundingStep(factor: u8, delta: u64, sum: nat, credited: nat, n: nat)
    requires 0 <= factor * sum - 100 * credited <= 99 * n
    ensures 0 <= factor * (delta + sum) - 100 * (factor * delta / 100 + credited) <= 99 * (n + 1)
  {
    assert factor * (delta + sum) == factor * delta + factor * sum;
  }

  /** Over any number of announces with the same factor, rounding costs less than one byte each, and never gains */
  lemma {:induction false} RoundingIsBounded(factor: u8, deltas: seq<u64>)
    requires forall d :: d in deltas ==> ProductFits(factor, d)
    ensures 0 <= factor * Sum(deltas) - 100 * SumCredited(factor, deltas) <= 99 * |deltas|
  {
    if deltas == [] {
      assert factor * 0 == 0;
    } else {
      var rest := deltas[1..];
      assert ProductFits(factor, deltas[0]) && forall d :: d in rest ==> d in deltas;
      RoundingIsBounded(factor, rest);
      CreditIsExactIff(factor, deltas[0]);
      RoundingStep(factor, deltas[0], Sum(rest), SumCredited(factor, rest), |rest|);
    }
  }

  /** Groups come with a download factor of 0 or 100 and an upload factor of 100 or 200 */
  predicate IsOrdinary(group: Group) {
    (group.downloadFactor == 0 || group.downloadFactor == 100) && (group.uploadFactor == 100 || group.uploadFactor == 200)
  }

  /** Whatever the settings, the torrent and the favours: nobody is charged more than was downloaded, or credited
      less than was uploaded. */
  lemma CreditsFavourTheUser(
      c: Config, group: Group, torrentUpload: u8, torrentDownload: u8, fav: Favours,
      uploadFactor: u8, downloadFactor: u8, uploaded: u64, downloaded: u64)
    requires IsOrdinary(group) && uploaded <= U64_MAX / 255 && downloaded <= U64_MAX / 255
    requires AreFactors(c, group, torrentUpload, torrentDownload, fav, uploadFactor, downloadFactor)
    ensures Credited(downloadFactor, downloaded) <= downloaded
    ensures uploaded <= Credited(uploadFactor, uploaded)
  {
    UploadAtLeastActual(c, group, torrentUpload, fav, uploadFactor);
    DownloadAtMostActual(c, group, torrentDownload, fav, downloadFactor);
    CreditsFit(uploadFactor, uploaded);
    CreditsFit(downloadFactor, downloaded);
    TimesMonotone(100, uploadFactor, uploaded);
    TimesMonotone(downloadFactor, 100, downloaded);
  }

  lemma UploadAtLeastActual(c: Config, group: Group, torrentUpload: u8, fav: Favours, uploadFactor: u8)
    requires IsOrdinary(group)
    requires if fav.isFeatured then uploadFactor == 200
             else IsGreatest(uploadFactor, UploadOffers(c, group, torrentUpload, fav))
    ensures uploadFactor >= 100
  {
    var offers := UploadOffers(c, group, torrentUpload, fav);
    assert offers[1] == group.uploadFactor && offers[1] in offers;
  }

  lemma DownloadAtMostActual(c: Config, group: Group, torrentDownload: u8, fav: Favours, downloadFactor: u8)
    requires IsOrdinary(group)
    requires if IsFreeleech(fav) then downloadFactor == 0
             else IsLeast(downloadFactor, DownloadOffers(c, group, torrentDownload, fav))
    ensures downloadFactor <= 100
  {
    var offers := DownloadOffers(c, group, torrentDownload, fav);
    assert offers[1] == group.downloadFactor && offers[1] in offers;
  }
}
