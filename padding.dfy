/** The padding arithmetic of `/padStop` (api/src/index.ts:44-47, 84-89). */
module Padding {
  const Base: int := 60
  const PerFloor: int := 10
  const OfficeBonus: int := 30
  const PeakBonus: int := 20

  /** `base + perFloor * floor_count + (is_office ? office : 0) + (is_peak ? peak : 0)` */
  function VerticalPad(floorCount: int, isOffice: bool, isPeak: bool): int {
    Base + PerFloor * floorCount + (if isOffice then OfficeBonus else 0) + (if isPeak then PeakBonus else 0)
  }

  /** `horizontal_time_sec + pad` */
  function TotalSec(horizontalSec: int, pad: int): int {
    horizontalSec + pad
  }

  /** Each extra floor adds exactly ten seconds. */
  lemma PerFloorStep(floorCount: int, isOffice: bool, isPeak: bool)
    ensures VerticalPad(floorCount + 1, isOffice, isPeak) == VerticalPad(floorCount, isOffice, isPeak) + PerFloor
  {
  }

  /** The office and peak bonuses are independent, fixed additions. */
  lemma Bonuses(floorCount: int, isOffice: bool, isPeak: bool)
    ensures VerticalPad(floorCount, true, isPeak) == VerticalPad(floorCount, false, isPeak) + OfficeBonus
    ensures VerticalPad(floorCount, isOffice, true) == VerticalPad(floorCount, isOffice, false) + PeakBonus
  {
  }

  /** The pad lies between the floor-only pad and that pad plus both bonuses. */
  lemma PadRange(floorCount: int, isOffice: bool, isPeak: bool)
    ensures Base + PerFloor * floorCount <= VerticalPad(floorCount, isOffice, isPeak)
    ensures VerticalPad(floorCount, isOffice, isPeak) <= Base + PerFloor * floorCount + OfficeBonus + PeakBonus
  {
  }

  /** With at least one floor the pad is at least 70 seconds, so the total exceeds the horizontal time. */
  lemma PadPositive(floorCount: int, isOffice: bool, isPeak: bool, horizontalSec: int)
    requires floorCount >= 1
    ensures VerticalPad(floorCount, isOffice, isPeak) >= Base + PerFloor
    ensures TotalSec(horizontalSec, VerticalPad(floorCount, isOffice, isPeak)) > horizontalSec
  {
  }

  /** A levels tag of -10 is kept as it is and gives a negative pad: the total is less than the horizontal time. */
  lemma NegativeFloors(horizontalSec: int)
    ensures VerticalPad(-10, false, false) == -40
    ensures TotalSec(horizontalSec, VerticalPad(-10, false, false)) < horizontalSec
  {
  }

  lemma Examples()
    ensures VerticalPad(5, false, false) == 110 && TotalSec(100, VerticalPad(5, false, false)) == 210
    ensures VerticalPad(10, true, true) == 210 && TotalSec(50, VerticalPad(10, true, true)) == 260
  {
  }
}
