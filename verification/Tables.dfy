/** The constant tables (a52tab.c, log2tab in util.c). Monotone tables are written as runs of equal entries. */
module Tables {

  /** Entry `k` of a three-column table row. */
  function Column(k: nat, a: int, b: int, c: int): int
    requires k < 3
  {
    if k == 0 then a else if k == 1 then b else c
  }

  function Log2Tab(v: nat): nat
    requires v < 256
  {
    if v < 2 then 0 else if v < 4 then 1 else if v < 8 then 2 else if v < 16 then 3 else
    if v < 32 then 4 else if v < 64 then 5 else if v < 128 then 6 else 7
  }

  /** a52_log_add_tab; entries from 210 on are zero. */
  function LogAddTab(adr: nat): (r: nat)
    requires adr < 260
    ensures r <= 64
  {
    if adr < 1 then 64 else if adr < 2 then 63 else if adr < 3 then 62 else if adr < 4 then 61 else
    if adr < 5 then 60 else if adr < 6 then 59 else if adr < 7 then 58 else if adr < 8 then 57 else
    if adr < 9 then 56 else if adr < 10 then 55 else if adr < 11 then 54 else if adr < 12 then 53 else
    if adr < 14 then 52 else if adr < 15 then 51 else if adr < 16 then 50 else if adr < 17 then 49 else
    if adr < 18 then 48 else if adr < 20 then 47 else if adr < 21 then 46 else if adr < 22 then 45 else
    if adr < 24 then 44 else if adr < 25 then 43 else if adr < 26 then 42 else if adr < 28 then 41 else
    if adr < 29 then 40 else if adr < 30 then 39 else if adr < 32 then 38 else if adr < 33 then 37 else
    if adr < 35 then 36 else if adr < 37 then 35 else if adr < 38 then 34 else if adr < 40 then 33 else
    if adr < 42 then 32 else if adr < 43 then 31 else if adr < 45 then 30 else if adr < 47 then 29 else
    if adr < 49 then 28 else if adr < 51 then 27 else if adr < 53 then 26 else if adr < 55 then 25 else
    if adr < 57 then 24 else if adr < 59 then 23 else if adr < 61 then 22 else if adr < 64 then 21 else
    if adr < 66 then 20 else if adr < 69 then 19 else if adr < 72 then 18 else if adr < 75 then 17 else
    if adr < 78 then 16 else if adr < 81 then 15 else if adr < 84 then 14 else if adr < 88 then 13 else
    if adr < 92 then 12 else if adr < 96 then 11 else if adr < 101 then 10 else if adr < 106 then 9 else
    if adr < 112 then 8 else if adr < 118 then 7 else if adr < 126 then 6 else if adr < 134 then 5 else
    if adr < 145 then 4 else if adr < 159 then 3 else if adr < 178 then 2 else if adr < 210 then 1 else
    0
  }

  function BapTab(address: nat): (r: nat)
    requires address < 64
    ensures r <= 15
  {
    if address < 1 then 0 else if address < 6 then 1 else if address < 8 then 2 else if address < 11 then 3 else
    if address < 13 then 4 else if address < 15 then 5 else if address < 19 then 6 else if address < 23 then 7 else
    if address < 27 then 8 else if address < 31 then 9 else if address < 35 then 10 else if address < 39 then 11 else
    if address < 43 then 12 else if address < 47 then 13 else if address < 55 then 14 else 15
  }

  function HearingThresholdTab(band: nat, fscod: nat): (r: int)
    requires band < 50 && fscod < 3
    ensures 752 <= r <= 2112
  {
    match band
    case 0 => Column(fscod, 1232, 1264, 1408)
    case 1 => Column(fscod, 1232, 1264, 1408)
    case 2 => Column(fscod, 1088, 1120, 1200)
    case 3 => Column(fscod, 1024, 1040, 1104)
    case 4 => Column(fscod, 992, 992, 1056)
    case 5 => Column(fscod, 960, 976, 1008)
    case 6 => Column(fscod, 944, 960, 992)
    case 7 => Column(fscod, 944, 944, 976)
    case 8 => Column(fscod, 928, 944, 960)
    case 9 => Column(fscod, 928, 928, 944)
    case 10 => Column(fscod, 928, 928, 944)
    case 11 => Column(fscod, 928, 928, 944)
    case 12 => Column(fscod, 928, 928, 928)
    case 13 => Column(fscod, 912, 928, 928)
    case 14 => Column(fscod, 912, 912, 928)
    case 15 => Column(fscod, 912, 912, 928)
    case 16 => Column(fscod, 896, 912, 928)
    case 17 => Column(fscod, 896, 896, 928)
    case 18 => Column(fscod, 880, 896, 928)
    case 19 => Column(fscod, 880, 896, 928)
    case 20 => Column(fscod, 864, 880, 912)
    case 21 => Column(fscod, 864, 880, 912)
    case 22 => Column(fscod, 848, 864, 912)
    case 23 => Column(fscod, 848, 864, 912)
    case 24 => Column(fscod, 832, 848, 896)
    case 25 => Column(fscod, 832, 848, 896)
    case 26 => Column(fscod, 816, 832, 896)
    case 27 => Column(fscod, 800, 832, 880)
    case 28 => Column(fscod, 784, 800, 864)
    case 29 => Column(fscod, 768, 784, 848)
    case 30 => Column(fscod, 752, 768, 832)
    case 31 => Column(fscod, 752, 752, 816)
    case 32 => Column(fscod, 752, 752, 800)
    case 33 => Column(fscod, 752, 752, 784)
    case 34 => Column(fscod, 768, 752, 768)
    case 35 => Column(fscod, 784, 768, 752)
    case 36 => Column(fscod, 832, 800, 752)
    case 37 => Column(fscod, 912, 848, 752)
    case 38 => Column(fscod, 992, 912, 768)
    case 39 => Column(fscod, 1056, 992, 784)
    case 40 => Column(fscod, 1120, 1056, 816)
    case 41 => Column(fscod, 1168, 1104, 848)
    case 42 => Column(fscod, 1184, 1184, 960)
    case 43 => Column(fscod, 1120, 1168, 1040)
    case 44 => Column(fscod, 1088, 1120, 1136)
    case 45 => Column(fscod, 1088, 1088, 1184)
    case 46 => Column(fscod, 1312, 1152, 1120)
    case 47 => Column(fscod, 2048, 1584, 1088)
    case 48 => Column(fscod, 2112, 2112, 1104)
    case _ => Column(fscod, 2112, 2112, 1248)
  }

  /** Number of bins in each critical band. */
  function CriticalBandSizeTab(band: nat): nat
    requires band < 50
  {
    if band < 28 then 1 else if band < 35 then 3 else if band < 41 then 6 else if band < 45 then 12 else 24
  }

  function SlowDecayTab(k: nat): nat { 15 + 2 * (k % 4) }

  function FastDecayTab(k: nat): nat { 63 + 20 * (k % 4) }

  function SlowGainTab(k: nat): nat
  {
    match k
    case 0 => 1344
    case 1 => 1240
    case 2 => 1144
    case _ => 1040
  }

  function DbPerBitTab(k: nat): nat
  {
    match k
    case 0 => 0
    case 1 => 1792
    case 2 => 2304
    case _ => 2816
  }

  function FloorTab(k: nat): int
  {
    match k
    case 0 => 752
    case 1 => 688
    case 2 => 624
    case 3 => 560
    case 4 => 496
    case 5 => 368
    case 6 => 240
    case _ => -2048
  }

  function FastGainTab(k: nat): nat { 128 * (k % 8 + 1) }

  function ChannelsTab(acmod: nat): nat
  {
    match acmod
    case 0 => 2
    case 1 => 1
    case 2 => 2
    case 3 => 3
    case 4 => 3
    case 5 => 4
    case 6 => 4
    case _ => 5
  }

  /** Channels with the LFE channel, if there is one. */
  function WithLfe(n: nat, lfe: bool): nat { if lfe then n + 1 else n }

  function SampleRateTab(fscod: nat): nat
    requires fscod < 3
  {
    Column(fscod, 48000, 44100, 32000)
  }

  function BitrateTab(i: nat): nat
    requires i < 19
  {
    match i
    case 0 => 32
    case 1 => 40
    case 2 => 48
    case 3 => 56
    case 4 => 64
    case 5 => 80
    case 6 => 96
    case 7 => 112
    case 8 => 128
    case 9 => 160
    case 10 => 192
    case 11 => 224
    case 12 => 256
    case 13 => 320
    case 14 => 384
    case 15 => 448
    case 16 => 512
    case 17 => 576
    case _ => 640
  }

  /** Frame sizes in bits. */
  function FrameSizeTab(frmsizecod: nat, fscod: nat): nat
    requires frmsizecod < 38 && fscod < 3
  {
    match frmsizecod
    case 0 => Column(fscod, 1024, 1104, 1536)
    case 1 => Column(fscod, 1024, 1120, 1536)
    case 2 => Column(fscod, 1280, 1392, 1920)
    case 3 => Column(fscod, 1280, 1408, 1920)
    case 4 => Column(fscod, 1536, 1664, 2304)
    case 5 => Column(fscod, 1536, 1680, 2304)
    case 6 => Column(fscod, 1792, 1936, 2688)
    case 7 => Column(fscod, 1792, 1952, 2688)
    case 8 => Column(fscod, 2048, 2224, 3072)
    case 9 => Column(fscod, 2048, 2240, 3072)
    case 10 => Column(fscod, 2560, 2784, 3840)
    case 11 => Column(fscod, 2560, 2800, 3840)
    case 12 => Column(fscod, 3072, 3328, 4608)
    case 13 => Column(fscod, 3072, 3344, 4608)
    case 14 => Column(fscod, 3584, 3888, 5376)
    case 15 => Column(fscod, 3584, 3904, 5376)
    case 16 => Column(fscod, 4096, 4448, 6144)
    case 17 => Column(fscod, 4096, 4464, 6144)
    case 18 => Column(fscod, 5120, 5568, 7680)
    case 19 => Column(fscod, 5120, 5584, 7680)
    case 20 => Column(fscod, 6144, 6672, 9216)
    case 21 => Column(fscod, 6144, 6688, 9216)
    case 22 => Column(fscod, 7168, 7792, 10752)
    case 23 => Column(fscod, 7168, 7808, 10752)
    case 24 => Column(fscod, 8192, 8912, 12288)
    case 25 => Column(fscod, 8192, 8928, 12288)
    case 26 => Column(fscod, 10240, 11136, 15360)
    case 27 => Column(fscod, 10240, 11152, 15360)
    case 28 => Column(fscod, 12288, 13360, 18432)
    case 29 => Column(fscod, 12288, 13376, 18432)
    case 30 => Column(fscod, 14336, 15600, 21504)
    case 31 => Column(fscod, 14336, 15616, 21504)
    case 32 => Column(fscod, 16384, 17824, 24576)
    case 33 => Column(fscod, 16384, 17840, 24576)
    case 34 => Column(fscod, 18432, 20048, 27648)
    case 35 => Column(fscod, 18432, 20064, 27648)
    case 36 => Column(fscod, 20480, 22288, 30720)
    case _ => Column(fscod, 20480, 22304, 30720)
  }

  /** Exponent strategies: 0 is REUSE, 1 D15, 2 D25, 3 D45. */
  function ExpstrSetTab(set_: nat): (r: seq<nat>)
    requires set_ < 32
    ensures |r| == 6 && r[0] in {1, 2, 3} && forall b :: 0 <= b < 6 ==> r[b] <= 3
  {
    match set_
    case 0 => [1, 0, 0, 0, 0, 0]
    case 1 => [1, 0, 0, 0, 0, 3]
    case 2 => [1, 0, 0, 0, 2, 0]
    case 3 => [1, 0, 0, 0, 3, 3]
    case 4 => [2, 0, 0, 2, 0, 0]
    case 5 => [2, 0, 0, 2, 0, 3]
    case 6 => [2, 0, 0, 3, 2, 0]
    case 7 => [2, 0, 0, 3, 3, 3]
    case 8 => [2, 0, 1, 0, 0, 0]
    case 9 => [2, 0, 2, 0, 0, 3]
    case 10 => [2, 0, 2, 0, 2, 0]
    case 11 => [2, 0, 2, 0, 3, 3]
    case 12 => [2, 0, 3, 2, 0, 0]
    case 13 => [2, 0, 3, 2, 0, 3]
    case 14 => [2, 0, 3, 3, 2, 0]
    case 15 => [2, 0, 3, 3, 3, 3]
    case 16 => [3, 1, 0, 0, 0, 0]
    case 17 => [3, 1, 0, 0, 0, 3]
    case 18 => [3, 2, 0, 0, 2, 0]
    case 19 => [3, 2, 0, 0, 3, 3]
    case 20 => [3, 2, 0, 2, 0, 0]
    case 21 => [3, 2, 0, 2, 0, 3]
    case 22 => [3, 2, 0, 3, 2, 0]
    case 23 => [3, 2, 0, 3, 3, 3]
    case 24 => [3, 3, 1, 0, 0, 0]
    case 25 => [3, 3, 2, 0, 0, 3]
    case 26 => [3, 3, 2, 0, 2, 0]
    case 27 => [3, 3, 2, 0, 3, 3]
    case 28 => [3, 3, 3, 2, 0, 0]
    case 29 => [3, 3, 3, 2, 0, 3]
    case 30 => [3, 3, 3, 3, 2, 0]
    case _ => [3, 3, 3, 3, 3, 3]
  }
}
