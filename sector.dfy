/** The keyword classifier that gives every ETF its sector/strategy label
    (`classify_sector` in kr_etf_investor/loader.py). The buckets are tried in
    a fixed priority order, asset class first and broad index last; the first
    bucket one of whose keywords occurs in the upper-cased
    "name + ' ' + index name" wins. */
module SectorClassifier {
  import opened Common

  datatype Bucket = Bucket(sector: string, keywords: seq<string>)

  const Unclassified: string := "[기타] 분류미상"

  const Buckets: seq<Bucket> := [
    Bucket("[자산] 채권/현금", ["채권", "국채", "통안", "회사채", "금리", "CD", "KOFR", "파킹", "머니마켓", "단기자금", "CASH", "BOND", "통화", "달러", "USD"]),
    Bucket("[자산] 리츠/인프라", ["리츠", "REITS", "부동산", "인프라"]),
    Bucket("[자산] 원자재", ["금 ", "은 ", "구리", "원자재", "COMMODITY", "금현물", "은현물"]),
    Bucket("[전략] 인컴/커버드콜", ["커버드콜", "프리미엄", "데일리고정", "COVERED CALL", "PREMIUM", "BUFFALO", "타겟리턴", "플러스"]),
    Bucket("[전략] 배당/가치/성장", ["배당", "고배당", "배당성장", "배당주", "DIVIDEND", "DURABILITY", "가치", "VALUE", "저PBR", "퀄리티", "QUALITY", "ESG", "사회책임", "모멘텀", "MOMENTUM"]),
    Bucket("[산업] IT/반도체/AI", ["반도체", "AI", "테크", "소부장", "IT", "TECH", "DIGITAL", "소프트웨어", "HBM"]),
    Bucket("[산업] 금융/은행/보험", ["금융", "은행", "보험", "증권", "지주", "FINANCE", "K-금융"]),
    Bucket("[산업] 에너지/소재/산업재", ["에너지", "화학", "철강", "정유", "원유", "조선", "원자력", "신재생", "친환경", "소비재", "화장품", "건설"]),
    Bucket("[테마] 2차전지/전기차", ["2차전지", "배터리", "BATTERY", "리튬", "전기차", "EV", "에너지솔루션"]),
    Bucket("[테마] 바이오/헬스케어", ["바이오", "헬스케어", "BIO", "HEALTHCARE", "의료", "제약"]),
    Bucket("[테마] 중소형주", ["중소형", "SMALL CAP", "미드캡"]),
    Bucket("[지수] 해외/글로벌", ["S&P", "NASDAQ", "나스닥", "다우", "미국", "글로벌", "GLOBAL", "MSCI", "유로", "베트남", "인도", "JAPAN", "일본", "차이나", "중국", "액티브"]),
    Bucket("[지수] 국내 시장", ["200", "KOSPI", "코스피", "KOSDAQ", "코스닥", "150", "KRX300", "삼성그룹", "현대차그룹"])
  ]

  predicate Hits(b: Bucket, text: string) {
    ContainsAny(text, b.keywords)
  }

  /** The text the classifier searches: `(name + " " + index).upper()`. */
  function SearchText(name: string, index: string): string {
    Upper(name + " " + index)
  }

  /** Index of the first bucket at or after `from` that the text hits. */
  function FirstHit(text: string, from: nat): (r: Option<nat>)
    requires from <= |Buckets|
    ensures r.Some? ==> from <= r.value < |Buckets| && Hits(Buckets[r.value], text)
    ensures r.Some? ==> forall j :: from <= j < r.value ==> !Hits(Buckets[j], text)
    ensures r.None? ==> forall j :: from <= j < |Buckets| ==> !Hits(Buckets[j], text)
    decreases |Buckets| - from
  {
    if from == |Buckets| then None
    else if Hits(Buckets[from], text) then Some(from)
    else FirstHit(text, from + 1)
  }

  /** `classify_sector(ticker_name, index_name)`: the label of the first bucket
      whose keyword occurs in the search text, or the unclassified label. */
  function Classify(name: string, index: string): (sector: string)
    ensures sector == Unclassified <==>
      forall j :: 0 <= j < |Buckets| ==> !Hits(Buckets[j], SearchText(name, index))
    ensures forall i :: 0 <= i < |Buckets| ==>
      (sector == Buckets[i].sector <==>
        Hits(Buckets[i], SearchText(name, index)) &&
        forall j :: 0 <= j < i ==> !Hits(Buckets[j], SearchText(name, index)))
  {
    ClassifyText(SearchText(name, index))
  }

  function ClassifyText(text: string): (sector: string)
    ensures sector == Unclassified <==> forall j :: 0 <= j < |Buckets| ==> !Hits(Buckets[j], text)
    ensures forall i :: 0 <= i < |Buckets| ==>
      (sector == Buckets[i].sector <==> Hits(Buckets[i], text) && forall j :: 0 <= j < i ==> !Hits(Buckets[j], text))
  {
    LabelsDistinct();
    match FirstHit(text, 0)
    case Some(i) => Buckets[i].sector
    case None => Unclassified
  }

  /** No two buckets share a label, and none is the unclassified label. */
  lemma LabelsDistinct()
    ensures forall i, j :: 0 <= i < j < |Buckets| ==> Buckets[i].sector != Buckets[j].sector
    ensures forall i :: 0 <= i < |Buckets| ==> Buckets[i].sector != Unclassified
  {
  }

  /** Asset class outranks every other bucket: a bond keyword decides the label
      whatever else the name contains. */
  lemma BondFirst(name: string, index: string, k: string)
    requires k in Buckets[0].keywords && Contains(SearchText(name, index), k)
    ensures Classify(name, index) == "[자산] 채권/현금"
  {
    var i :| 0 <= i < |Buckets[0].keywords| && Buckets[0].keywords[i] == k;
    ContainsAnyMeans(SearchText(name, index), Buckets[0].keywords);
  }

  /** Lower-case ASCII in the name does not escape a keyword: "kodex 200" is a
      domestic index fund like "KODEX 200". */
  lemma CaseInsensitive(name: string, index: string)
    ensures Classify(name, index) == Classify(Upper(name), Upper(index))
  {
    UpperConcat(name + " ", index);
    UpperConcat(name, " ");
    UpperConcat(Upper(name) + " ", Upper(index));
    UpperConcat(Upper(name), " ");
    UpperTwice(name);
    UpperTwice(index);
    assert SearchText(name, index) == SearchText(Upper(name), Upper(index));
  }

  lemma UpperConcat(a: string, b: string)
    ensures Upper(a + b) == Upper(a) + Upper(b)
  {
    assert forall i :: 0 <= i < |a + b| ==> Upper(a + b)[i] == (Upper(a) + Upper(b))[i];
  }

  lemma UpperTwice(s: string)
    ensures Upper(Upper(s)) == Upper(s)
  {
    assert forall i :: 0 <= i < |s| ==> Upper(Upper(s))[i] == Upper(s)[i];
  }
}
