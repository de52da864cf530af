/** The offline word bank and its random picker (services/fallbackData.ts).
    The table is transcribed entry for entry; the picker shuffles a copy of
    one level with Fisher–Yates, keeps a prefix and numbers the entries. */
module Fallback {
  import opened Wrappers
  import opened Types
  import Text
  import Shuffle

  /** An entry of the bank, before it is given an id. */
  datatype SimpleVocab = SimpleVocab(hanzi: string, pinyin: string, meaning: string)

  /** Level 1 (services/fallbackData.ts:7). */
  const Level1: seq<SimpleVocab> := [
    SimpleVocab("爱", "ài", "Yêu"),
    SimpleVocab("八", "bā", "Số 8"),
    SimpleVocab("爸爸", "bàba", "Bố"),
    SimpleVocab("杯子", "bēizi", "Cái cốc"),
    SimpleVocab("北京", "Běijīng", "Bắc Kinh"),
    SimpleVocab("本", "běn", "Quyển (lượng từ)"),
    SimpleVocab("不客气", "bú kèqi", "Đừng khách sáo"),
    SimpleVocab("菜", "cài", "Món ăn / Rau"),
    SimpleVocab("茶", "chá", "Trà"),
    SimpleVocab("吃", "chī", "Ăn"),
    SimpleVocab("出租车", "chūzūchē", "Taxi"),
    SimpleVocab("大", "dà", "To, lớn"),
    SimpleVocab("电脑", "diànnǎo", "Máy tính"),
    SimpleVocab("电视", "diànshì", "Tivi"),
    SimpleVocab("高兴", "gāoxìng", "Vui vẻ")
  ]

  /** Level 2 (services/fallbackData.ts:24). */
  const Level2: seq<SimpleVocab> := [
    SimpleVocab("吧", "ba", "Nhé, đi (trợ từ)"),
    SimpleVocab("白", "bái", "Màu trắng"),
    SimpleVocab("百", "bǎi", "Trăm"),
    SimpleVocab("帮助", "bāngzhù", "Giúp đỡ"),
    SimpleVocab("报纸", "bàozhǐ", "Báo giấy"),
    SimpleVocab("比", "bǐ", "So với"),
    SimpleVocab("别", "bié", "Đừng"),
    SimpleVocab("长", "cháng", "Dài"),
    SimpleVocab("唱歌", "chànggē", "Hát"),
    SimpleVocab("穿", "chuān", "Mặc"),
    SimpleVocab("大家", "dàjiā", "Mọi người"),
    SimpleVocab("但是", "dànshì", "Nhưng mà"),
    SimpleVocab("懂", "dǒng", "Hiểu"),
    SimpleVocab("非常", "fēicháng", "Vô cùng"),
    SimpleVocab("红", "hóng", "Màu đỏ")
  ]

  /** Level 3 (services/fallbackData.ts:41). */
  const Level3: seq<SimpleVocab> := [
    SimpleVocab("阿姨", "āyí", "Dì, cô"),
    SimpleVocab("矮", "ǎi", "Thấp"),
    SimpleVocab("爱好", "àihào", "Sở thích"),
    SimpleVocab("安静", "ānjìng", "Yên tĩnh"),
    SimpleVocab("搬", "bān", "Chuyển, dời"),
    SimpleVocab("办法", "bànfǎ", "Biện pháp"),
    SimpleVocab("饱", "bǎo", "No"),
    SimpleVocab("北方", "běifāng", "Miền Bắc"),
    SimpleVocab("必须", "bìxū", "Phải, bắt buộc"),
    SimpleVocab("冰箱", "bīngxiāng", "Tủ lạnh"),
    SimpleVocab("才", "cái", "Mới (vừa mới)"),
    SimpleVocab("草", "cǎo", "Cỏ"),
    SimpleVocab("层", "céng", "Tầng"),
    SimpleVocab("差", "chà", "Kém, thiếu"),
    SimpleVocab("超市", "chāoshì", "Siêu thị")
  ]

  /** Level 4 (services/fallbackData.ts:58). */
  const Level4: seq<SimpleVocab> := [
    SimpleVocab("爱情", "àiqíng", "Tình yêu"),
    SimpleVocab("安排", "ānpái", "Sắp xếp"),
    SimpleVocab("安全", "ānquán", "An toàn"),
    SimpleVocab("暗", "àn", "Tối, ngầm"),
    SimpleVocab("按时", "ànshí", "Đúng giờ"),
    SimpleVocab("按照", "ànzhào", "Dựa theo"),
    SimpleVocab("包括", "bāokuò", "Bao gồm"),
    SimpleVocab("保护", "bǎohù", "Bảo vệ"),
    SimpleVocab("抱", "bào", "Ôm"),
    SimpleVocab("报名", "bàomíng", "Báo danh"),
    SimpleVocab("笨", "bèn", "Ngốc"),
    SimpleVocab("本来", "běnlái", "Vốn dĩ"),
    SimpleVocab("毕业", "bìyè", "Tốt nghiệp"),
    SimpleVocab("标准", "biāozhǔn", "Tiêu chuẩn"),
    SimpleVocab("表扬", "biǎoyáng", "Tuyên dương")
  ]

  /** Level 5 (services/fallbackData.ts:75). */
  const Level5: seq<SimpleVocab> := [
    SimpleVocab("爱惜", "àixī", "Trân trọng, yêu quý"),
    SimpleVocab("爱心", "àixīn", "Lòng yêu thương"),
    SimpleVocab("安慰", "ānwèi", "An ủi"),
    SimpleVocab("安装", "ānzhuāng", "Lắp đặt"),
    SimpleVocab("岸", "àn", "Bờ (sông, biển)"),
    SimpleVocab("把握", "bǎwò", "Nắm bắt"),
    SimpleVocab("摆", "bǎi", "Bày biện"),
    SimpleVocab("班主任", "bānzhǔrèn", "Giáo viên chủ nhiệm"),
    SimpleVocab("办理", "bànlǐ", "Xử lý"),
    SimpleVocab("棒", "bàng", "Giỏi, tuyệt"),
    SimpleVocab("包裹", "bāoguǒ", "Bưu kiện"),
    SimpleVocab("包含", "bāohán", "Chứa đựng"),
    SimpleVocab("宝贝", "bǎobèi", "Bảo bối"),
    SimpleVocab("宝贵", "bǎoguì", "Quý giá"),
    SimpleVocab("保持", "bǎochí", "Duy trì")
  ]

  /** Level 6 (services/fallbackData.ts:92). */
  const Level6: seq<SimpleVocab> := [
    SimpleVocab("挨", "ái", "Chịu đựng / Kề bên"),
    SimpleVocab("癌症", "áizhèng", "Ung thư"),
    SimpleVocab("爱不释手", "àibúshìshǒu", "Yêu không buông tay"),
    SimpleVocab("爱戴", "àidài", "Kính yêu"),
    SimpleVocab("暧昧", "àimèi", "Mập mờ"),
    SimpleVocab("安宁", "ānníng", "An ninh"),
    SimpleVocab("安详", "ānxiáng", "An tường, điềm tĩnh"),
    SimpleVocab("安置", "ānzhì", "Bố trí"),
    SimpleVocab("暗示", "ànshì", "Ám thị"),
    SimpleVocab("案件", "ànjiàn", "Vụ án"),
    SimpleVocab("昂贵", "ángguì", "Đắt đỏ"),
    SimpleVocab("凹凸", "āotū", "Lồi lõm"),
    SimpleVocab("巴结", "bājie", "Nịnh bợ"),
    SimpleVocab("拔苗助长", "bámiáozhùzhǎng", "Dục tốc bất đạt"),
    SimpleVocab("把关", "bǎguān", "Kiểm tra, rà soát")
  ]

  /** Level 7 (services/fallbackData.ts:110). */
  const Level7: seq<SimpleVocab> := [
    SimpleVocab("博大精深", "bódàjīngshēn", "Uyên bác thâm sâu"),
    SimpleVocab("不可思议", "bùkěsīyì", "Không thể tưởng tượng nổi"),
    SimpleVocab("不屑一顾", "búxièyígù", "Không thèm để ý"),
    SimpleVocab("沧海桑田", "cānghǎisāngtián", "Bãi bể nương dâu"),
    SimpleVocab("草木皆兵", "cǎomùjiēbīng", "Thần hồn nát thần tính")
  ]

  /** Level 8 (services/fallbackData.ts:117). */
  const Level8: seq<SimpleVocab> := [
    SimpleVocab("唇亡齿寒", "chúnwángchǐhán", "Môi hở răng lạnh"),
    SimpleVocab("打草惊蛇", "dǎcǎojīngshé", "Đánh rắn động cỏ"),
    SimpleVocab("大刀阔斧", "dàdāokuòfǔ", "Mạnh tay quyết liệt"),
    SimpleVocab("当仁不让", "dāngrénbúràng", "Đương nhiên không nhường")
  ]

  /** Level 9 (services/fallbackData.ts:123). */
  const Level9: seq<SimpleVocab> := [
    SimpleVocab("得寸进尺", "décùnjìnchǐ", "Được đằng chân lân đằng đầu"),
    SimpleVocab("对牛弹琴", "duìniútánqín", "Đàn gảy tai trâu"),
    SimpleVocab("恩重如山", "ēnzhòngrúshān", "Ơn nặng tựa núi"),
    SimpleVocab("防患未然", "fánghuànwèirán", "Phòng bệnh hơn chữa bệnh")
  ]
  /** `HSK_DATA[level]`: levels 1 to 9 are present, every other key is
      `undefined`. */
  function HskData(level: int): (r: Option<seq<SimpleVocab>>)
    ensures r.Some? <==> 1 <= level <= 9
    ensures r.Some? ==> |r.value| == if level <= 6 then 15 else if level == 7 then 5 else 4
  {
    if level == 1 then Some(Level1)
    else if level == 2 then Some(Level2)
    else if level == 3 then Some(Level3)
    else if level == 4 then Some(Level4)
    else if level == 5 then Some(Level5)
    else if level == 6 then Some(Level6)
    else if level == 7 then Some(Level7)
    else if level == 8 then Some(Level8)
    else if level == 9 then Some(Level9)
    else None
  }

  /** The list the picker draws from: the level's own list when it exists
      and is not empty, otherwise level 6 (which exists, so the `||` that
      would fall back to level 1 never reaches it). */
  function SourceList(level: int): (r: seq<SimpleVocab>)
    ensures 1 <= level <= 9 ==> r == HskData(level).value
    ensures !(1 <= level <= 9) ==> r == Level6
    ensures |r| >= 4
  {
    var listed := HskData(level);
    if listed.None? || |listed.value| == 0 then
      var six := HskData(6);
      if six.Some? then six.value else Level1
    else listed.value
  }

  /** How many elements `slice(0, count)` keeps of a list of length `len`:
      a negative count counts from the end, and the result is clamped to
      `[0, len]`. */
  function SliceLength(len: nat, count: int): (n: nat)
    ensures n <= len
    ensures 0 <= count ==> n == if count < len then count else len
    ensures count < 0 ==> n == if len + count < 0 then 0 else len + count
  {
    var end := if count < 0 then len + count else count;
    if end < 0 then 0 else if end > len then len else end
  }

  /** The id of the `index`-th picked entry: the level, the clock reading
      taken for it and the index. */
  function FallbackId(level: int, stamp: nat -> nat, index: nat): string {
    "fallback-" + Text.IntToString(level) + "-" + Text.NatToString(stamp(index)) + "-" + Text.NatToString(index)
  }

  /** `{ ...item, id }`. */
  function WithId(v: SimpleVocab, id: string): (r: VocabItem)
    ensures r.id == id && Strip(r) == v
  {
    VocabItem(id, v.hanzi, v.pinyin, v.meaning)
  }

  /** An entry without its id. */
  function Strip(v: VocabItem): SimpleVocab {
    SimpleVocab(v.hanzi, v.pinyin, v.meaning)
  }

  /** Numbers the picked entries: the `i`-th gets the id for index `i`. */
  function Number(picked: seq<SimpleVocab>, level: int, stamp: nat -> nat): (r: seq<VocabItem>)
    ensures |r| == |picked|
    ensures forall i :: 0 <= i < |r| ==> r[i].id == FallbackId(level, stamp, i) && Strip(r[i]) == picked[i]
  {
    seq(|picked|, i requires 0 <= i < |picked| => WithId(picked[i], FallbackId(level, stamp, i)))
  }

  /** The picker on a given list: shuffle a copy, keep `slice(0, count)`,
      number the entries. */
  function PickFrom(src: seq<SimpleVocab>, level: int, count: int, rand: nat -> nat, stamp: nat -> nat): (r: seq<VocabItem>)
    ensures |r| == SliceLength(|src|, count)
    ensures forall i :: 0 <= i < |r| ==> r[i].id == FallbackId(level, stamp, i)
  {
    var shuffled := Shuffle.FisherYates(src, rand);
    Number(shuffled[..SliceLength(|shuffled|, count)], level, stamp)
  }

  /** `getRandomFallbackVocab(level, count)`: a random selection of
      `count` entries (or all of them, when fewer) from the level's list,
      each with a fresh id. */
  function GetRandomFallbackVocab(level: int, count: int, rand: nat -> nat, stamp: nat -> nat): (r: seq<VocabItem>)
    ensures |r| == SliceLength(|SourceList(level)|, count)
    ensures forall i :: 0 <= i < |r| ==> r[i].id == FallbackId(level, stamp, i)
  {
    PickFrom(SourceList(level), level, count, rand, stamp)
  }

  /** The entries without their ids. */
  function Contents(r: seq<VocabItem>): (c: seq<SimpleVocab>)
    ensures |c| == |r| && forall i :: 0 <= i < |r| ==> c[i] == Strip(r[i])
  {
    seq(|r|, i requires 0 <= i < |r| => Strip(r[i]))
  }

  /** What the picker returns, without ids, is a prefix of the shuffled
      list. */
  lemma PickFromContents(src: seq<SimpleVocab>, level: int, count: int, rand: nat -> nat, stamp: nat -> nat)
    ensures var shuffled := Shuffle.FisherYates(src, rand);
      Contents(PickFrom(src, level, count, rand, stamp)) == shuffled[..SliceLength(|src|, count)]
  {
  }

  /** The picked entries are the head of a reordering of the list: no entry
      is picked more often than it appears. */
  lemma PickFromSubMultiset(src: seq<SimpleVocab>, level: int, count: int, rand: nat -> nat, stamp: nat -> nat)
    ensures multiset(Contents(PickFrom(src, level, count, rand, stamp))) <= multiset(src)
  {
    var shuffled := Shuffle.FisherYates(src, rand);
    var n := SliceLength(|src|, count);
    PickFromContents(src, level, count, rand, stamp);
    assert shuffled == shuffled[..n] + shuffled[n..];
    assert multiset(shuffled) == multiset(shuffled[..n]) + multiset(shuffled[n..]);
  }

  /** The picked entries are a bank entry each, and no bank entry is picked
      more often than the level's list holds it. */
  lemma PickedFromSource(level: int, count: int, rand: nat -> nat, stamp: nat -> nat)
    ensures var r := GetRandomFallbackVocab(level, count, rand, stamp);
      multiset(Contents(r)) <= multiset(SourceList(level))
  {
    PickFromSubMultiset(SourceList(level), level, count, rand, stamp);
  }

  /** Asking for at least as many entries as the list has returns the whole
      list, reordered. */
  lemma AllPickedWhenCountCovers(level: int, count: int, rand: nat -> nat, stamp: nat -> nat)
    requires count >= |SourceList(level)|
    ensures var r := GetRandomFallbackVocab(level, count, rand, stamp);
      multiset(Contents(r)) == multiset(SourceList(level))
  {
    var src := SourceList(level);
    var shuffled := Shuffle.FisherYates(src, rand);
    PickFromContents(src, level, count, rand, stamp);
    assert shuffled[..|src|] == shuffled;
  }

  /** The picked entries carry pairwise different ids, whatever the clock
      reads. */
  lemma PickedIdsDistinct(level: int, count: int, rand: nat -> nat, stamp: nat -> nat)
    ensures var r := GetRandomFallbackVocab(level, count, rand, stamp);
      forall i, j :: 0 <= i < j < |r| ==> r[i].id != r[j].id
  {
    var r := GetRandomFallbackVocab(level, count, rand, stamp);
    forall i, j | 0 <= i < j < |r| ensures r[i].id != r[j].id {
      if r[i].id == r[j].id {
        FallbackIdsDiffer(level, stamp, i, j);
      }
    }
  }

  lemma FallbackIdsDiffer(level: int, stamp: nat -> nat, i: nat, j: nat)
    requires FallbackId(level, stamp, i) == FallbackId(level, stamp, j)
    ensures i == j
  {
    var a := "fallback-" + Text.IntToString(level) + "-" + Text.NatToString(stamp(i));
    var b := "fallback-" + Text.IntToString(level) + "-" + Text.NatToString(stamp(j));
    Text.DigitsHaveNoDash(Text.NatToString(i));
    Text.DigitsHaveNoDash(Text.NatToString(j));
    Text.SplitAtLastDash(a, Text.NatToString(i), b, Text.NatToString(j));
    Text.NatToStringInjective(i, j);
  }

  /** A level outside 1 to 9 draws from level 6. */
  lemma UnknownLevelUsesSix(level: int, count: int, rand: nat -> nat, stamp: nat -> nat)
    requires !(1 <= level <= 9)
    ensures var r := GetRandomFallbackVocab(level, count, rand, stamp);
      |r| == SliceLength(15, count) && multiset(Contents(r)) <= multiset(Level6)
  {
    assert SourceList(level) == Level6 == HskData(6).value;
    PickedFromSource(level, count, rand, stamp);
  }

  /** Level 8 holds four entries, so asking it for twelve yields four. */
  lemma LevelEightYieldsFour(rand: nat -> nat, stamp: nat -> nat)
    ensures |GetRandomFallbackVocab(8, 12, rand, stamp)| == 4
  {
  }
}
