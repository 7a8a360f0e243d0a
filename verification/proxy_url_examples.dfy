/**
  The two tables of sample URLs that ship with the extractor (proxy_url/main.cc), each
  row stated as a lemma about Extract. The first table uses the candidate keys
  {a, u, url, query}, the second adds curl and uri.

  A row's URL is written as its path, '?', and its query given as the list of segments it
  splits into; the lemma holds for every path without '?', the row's own path included.
  Each row is an instance of ExtractOfSegments: the segments are checked well formed, and
  the reference Answer is evaluated on them.
*/
module ProxyUrlExamples {
  import opened ProxyUrlExtractor

  const CandidateKeys1: set<string> := {"a", "u", "url", "query"}
  const CandidateKeys2: set<string> := {"a", "u", "url", "curl", "query", "uri"}

  lemma PairOk(key: string, value: string)
    requires '&' !in key && '=' !in key && '&' !in value
    ensures WellFormed(Pair(key, value))
  {
  }

  lemma BareOk(key: string)
    requires '&' !in key && '=' !in key
    ensures WellFormed(Bare(key))
  {
  }

  /** The query from=&to=zh-chs&a=http://hnujug.com/ */
  const QueryLine24: seq<Segment> := [
    Pair("from", ""),
    Pair("to", "zh-chs"),
    Pair("a", "http://hnujug.com/")]

  /** "http://hnujug.com/" holds no '&'. */
  lemma NoAmpHttpHnujugCom()
    ensures '&' !in "http://hnujug.com/"
  {
  }

  lemma QueryLine24WellFormed()
    ensures forall g | g in QueryLine24 :: WellFormed(g)
  {
    PairOk("from", "");
    PairOk("to", "zh-chs");
    NoAmpHttpHnujugCom();
    PairOk("a", "http://hnujug.com/");
  }

  lemma Answer1Line24()
    ensures Answer(CandidateKeys1, QueryLine24) == "http://hnujug.com/"
  {
  }

  /** main.cc line 24:
      http://www.microsofttranslator.com/bv.aspx?from=&to=zh-chs&a=http://hnujug.com/
      gives "http://hnujug.com/". */
  lemma Extract1Line24(path: string)
    requires '?' !in path
    ensures Extract(CandidateKeys1, path + "?" + QueryText(QueryLine24)) == "http://hnujug.com/"
  {
    QueryLine24WellFormed();
    ExtractOfSegments(CandidateKeys1, path, QueryLine24);
    Answer1Line24();
  }

  /** The query from=&to=zh-chs&a=http://hnujug.com/&xxx=t */
  const QueryLine25: seq<Segment> := [
    Pair("from", ""),
    Pair("to", "zh-chs"),
    Pair("a", "http://hnujug.com/"),
    Pair("xxx", "t")]

  lemma QueryLine25WellFormed()
    ensures forall g | g in QueryLine25 :: WellFormed(g)
  {
    PairOk("from", "");
    PairOk("to", "zh-chs");
    NoAmpHttpHnujugCom();
    PairOk("a", "http://hnujug.com/");
    PairOk("xxx", "t");
  }

  lemma Answer1Line25()
    ensures Answer(CandidateKeys1, QueryLine25) == "http://hnujug.com/"
  {
  }

  /** main.cc line 25:
      http://www.microsofttranslator.com/bv.aspx?from=&to=zh-chs&a=http://hnujug.com/&xxx=t
      gives "http://hnujug.com/". */
  lemma Extract1Line25(path: string)
    requires '?' !in path
    ensures Extract(CandidateKeys1, path + "?" + QueryText(QueryLine25)) == "http://hnujug.com/"
  {
    QueryLine25WellFormed();
    ExtractOfSegments(CandidateKeys1, path, QueryLine25);
    Answer1Line25();
  }

  /** The query a=http://hnujug.com/ */
  const QueryLine26: seq<Segment> := [
    Pair("a", "http://hnujug.com/")]

  lemma QueryLine26WellFormed()
    ensures forall g | g in QueryLine26 :: WellFormed(g)
  {
    NoAmpHttpHnujugCom();
    PairOk("a", "http://hnujug.com/");
  }

  lemma Answer1Line26()
    ensures Answer(CandidateKeys1, QueryLine26) == "http://hnujug.com/"
  {
  }

  /** main.cc line 26:
      http://www.microsofttranslator.com/bv.aspx?a=http://hnujug.com/
      gives "http://hnujug.com/". */
  lemma Extract1Line26(path: string)
    requires '?' !in path
    ensures Extract(CandidateKeys1, path + "?" + QueryText(QueryLine26)) == "http://hnujug.com/"
  {
    QueryLine26WellFormed();
    ExtractOfSegments(CandidateKeys1, path, QueryLine26);
    Answer1Line26();
  }

  /** The query a=http://hnujug.com/&xxx=t */
  const QueryLine27: seq<Segment> := [
    Pair("a", "http://hnujug.com/"),
    Pair("xxx", "t")]

  lemma QueryLine27WellFormed()
    ensures forall g | g in QueryLine27 :: WellFormed(g)
  {
    NoAmpHttpHnujugCom();
    PairOk("a", "http://hnujug.com/");
    PairOk("xxx", "t");
  }

  lemma Answer1Line27()
    ensures Answer(CandidateKeys1, QueryLine27) == "http://hnujug.com/"
  {
  }

  /** main.cc line 27:
      http://www.microsofttranslator.com/bv.aspx?a=http://hnujug.com/&xxx=t
      gives "http://hnujug.com/". */
  lemma Extract1Line27(path: string)
    requires '?' !in path
    ensures Extract(CandidateKeys1, path + "?" + QueryText(QueryLine27)) == "http://hnujug.com/"
  {
    QueryLine27WellFormed();
    ExtractOfSegments(CandidateKeys1, path, QueryLine27);
    Answer1Line27();
  }

  /** The query from=&to=zh-chs&u=http://hnujug.com/ */
  const QueryLine28: seq<Segment> := [
    Pair("from", ""),
    Pair("to", "zh-chs"),
    Pair("u", "http://hnujug.com/")]

  lemma QueryLine28WellFormed()
    ensures forall g | g in QueryLine28 :: WellFormed(g)
  {
    PairOk("from", "");
    PairOk("to", "zh-chs");
    NoAmpHttpHnujugCom();
    PairOk("u", "http://hnujug.com/");
  }

  lemma Answer1Line28()
    ensures Answer(CandidateKeys1, QueryLine28) == "http://hnujug.com/"
  {
  }

  /** main.cc line 28:
      http://www.microsofttranslator.com/bv.aspx?from=&to=zh-chs&u=http://hnujug.com/
      gives "http://hnujug.com/". */
  lemma Extract1Line28(path: string)
    requires '?' !in path
    ensures Extract(CandidateKeys1, path + "?" + QueryText(QueryLine28)) == "http://hnujug.com/"
  {
    QueryLine28WellFormed();
    ExtractOfSegments(CandidateKeys1, path, QueryLine28);
    Answer1Line28();
  }

  /** The query from=&to=zh-chs&u=http://hnujug.com/&xxx=t */
  const QueryLine29: seq<Segment> := [
    Pair("from", ""),
    Pair("to", "zh-chs"),
    Pair("u", "http://hnujug.com/"),
    Pair("xxx", "t")]

  lemma QueryLine29WellFormed()
    ensures forall g | g in QueryLine29 :: WellFormed(g)
  {
    PairOk("from", "");
    PairOk("to", "zh-chs");
    NoAmpHttpHnujugCom();
    PairOk("u", "http://hnujug.com/");
    PairOk("xxx", "t");
  }

  lemma Answer1Line29()
    ensures Answer(CandidateKeys1, QueryLine29) == "http://hnujug.com/"
  {
  }

  /** main.cc line 29:
      http://www.microsofttranslator.com/bv.aspx?from=&to=zh-chs&u=http://hnujug.com/&xxx=t
      gives "http://hnujug.com/". */
  lemma Extract1Line29(path: string)
    requires '?' !in path
    ensures Extract(CandidateKeys1, path + "?" + QueryText(QueryLine29)) == "http://hnujug.com/"
  {
    QueryLine29WellFormed();
    ExtractOfSegments(CandidateKeys1, path, QueryLine29);
    Answer1Line29();
  }

  /** The query from=&to=zh-chs */
  const QueryLine30: seq<Segment> := [
    Pair("from", ""),
    Pair("to", "zh-chs")]

  lemma QueryLine30WellFormed()
    ensures forall g | g in QueryLine30 :: WellFormed(g)
  {
    PairOk("from", "");
    PairOk("to", "zh-chs");
  }

  lemma Answer1Line30()
    ensures Answer(CandidateKeys1, QueryLine30) == ""
  {
  }

  /** main.cc line 30:
      http://www.microsofttranslator.com/bv.aspx?from=&to=zh-chs
      gives "". */
  lemma Extract1Line30(path: string)
    requires '?' !in path
    ensures Extract(CandidateKeys1, path + "?" + QueryText(QueryLine30)) == ""
  {
    QueryLine30WellFormed();
    ExtractOfSegments(CandidateKeys1, path, QueryLine30);
    Answer1Line30();
  }

  /** The query from=&to=zh-chs&uu=http://hnujug.com/&xxx=t */
  const QueryLine31: seq<Segment> := [
    Pair("from", ""),
    Pair("to", "zh-chs"),
    Pair("uu", "http://hnujug.com/"),
    Pair("xxx", "t")]

  lemma QueryLine31WellFormed()
    ensures forall g | g in QueryLine31 :: WellFormed(g)
  {
    PairOk("from", "");
    PairOk("to", "zh-chs");
    NoAmpHttpHnujugCom();
    PairOk("uu", "http://hnujug.com/");
    PairOk("xxx", "t");
  }

  lemma Answer1Line31()
    ensures Answer(CandidateKeys1, QueryLine31) == ""
  {
  }

  /** main.cc lines 31, 33:
      http://www.microsofttranslator.com/bv.aspx?from=&to=zh-chs&uu=http://hnujug.com/&xxx=t
      gives "". */
  lemma Extract1Line31(path: string)
    requires '?' !in path
    ensures Extract(CandidateKeys1, path + "?" + QueryText(QueryLine31)) == ""
  {
    QueryLine31WellFormed();
    ExtractOfSegments(CandidateKeys1, path, QueryLine31);
    Answer1Line31();
  }

  /** The query from=&to=zh-chs&u */
  const QueryLine32: seq<Segment> := [
    Pair("from", ""),
    Pair("to", "zh-chs"),
    Bare("u")]

  lemma QueryLine32WellFormed()
    ensures forall g | g in QueryLine32 :: WellFormed(g)
  {
    PairOk("from", "");
    PairOk("to", "zh-chs");
    BareOk("u");
  }

  lemma Answer1Line32()
    ensures Answer(CandidateKeys1, QueryLine32) == ""
  {
  }

  /** main.cc line 32:
      http://www.microsofttranslator.com/bv.aspx?from=&to=zh-chs&u
      gives "". */
  lemma Extract1Line32(path: string)
    requires '?' !in path
    ensures Extract(CandidateKeys1, path + "?" + QueryText(QueryLine32)) == ""
  {
    QueryLine32WellFormed();
    ExtractOfSegments(CandidateKeys1, path, QueryLine32);
    Answer1Line32();
  }

  /** The query from=&to=zh-chs&query=http://hnujug.com/ */
  const QueryLine34: seq<Segment> := [
    Pair("from", ""),
    Pair("to", "zh-chs"),
    Pair("query", "http://hnujug.com/")]

  lemma QueryLine34WellFormed()
    ensures forall g | g in QueryLine34 :: WellFormed(g)
  {
    PairOk("from", "");
    PairOk("to", "zh-chs");
    NoAmpHttpHnujugCom();
    PairOk("query", "http://hnujug.com/");
  }

  lemma Answer1Line34()
    ensures Answer(CandidateKeys1, QueryLine34) == "http://hnujug.com/"
  {
  }

  /** main.cc line 34:
      http://www.microsofttranslator.com/bv.aspx?from=&to=zh-chs&query=http://hnujug.com/
      gives "http://hnujug.com/". */
  lemma Extract1Line34(path: string)
    requires '?' !in path
    ensures Extract(CandidateKeys1, path + "?" + QueryText(QueryLine34)) == "http://hnujug.com/"
  {
    QueryLine34WellFormed();
    ExtractOfSegments(CandidateKeys1, path, QueryLine34);
    Answer1Line34();
  }

  /** Segments 0 to 3 of the query cb=translateCallback&ie=utf8&source=url&query=cdmaw.com&from=en&to=zh&token=&monLang=zh */
  const QueryLine35At0: seq<Segment> := [
    Pair("cb", "translateCallback"),
    Pair("ie", "utf8"),
    Pair("source", "url"),
    Pair("query", "cdmaw.com")]

  /** "translateCallback" holds no '&'. */
  lemma NoAmpTranslatecallback()
    ensures '&' !in "translateCallback"
  {
  }

  /** "cdmaw.com" holds no '&'. */
  lemma NoAmpCdmawCom()
    ensures '&' !in "cdmaw.com"
  {
  }

  lemma QueryLine35At0WellFormed()
    ensures forall g | g in QueryLine35At0 :: WellFormed(g)
  {
    NoAmpTranslatecallback();
    PairOk("cb", "translateCallback");
    PairOk("ie", "utf8");
    PairOk("source", "url");
    NoAmpCdmawCom();
    PairOk("query", "cdmaw.com");
  }

  /** Segments 4 to 7 of the query cb=translateCallback&ie=utf8&source=url&query=cdmaw.com&from=en&to=zh&token=&monLang=zh */
  const QueryLine35At4: seq<Segment> := [
    Pair("from", "en"),
    Pair("to", "zh"),
    Pair("token", ""),
    Pair("monLang", "zh")]

  lemma QueryLine35At4WellFormed()
    ensures forall g | g in QueryLine35At4 :: WellFormed(g)
  {
    PairOk("from", "en");
    PairOk("to", "zh");
    PairOk("token", "");
    PairOk("monLang", "zh");
  }

  /** The query cb=translateCallback&ie=utf8&source=url&query=cdmaw.com&from=en&to=zh&token=&monLang=zh */
  const QueryLine35: seq<Segment> := QueryLine35At0 + QueryLine35At4

  lemma QueryLine35WellFormed()
    ensures forall g | g in QueryLine35 :: WellFormed(g)
  {
    QueryLine35At0WellFormed();
    QueryLine35At4WellFormed();
  }

  lemma Answer1Line35At0()
    ensures Answer(CandidateKeys1, QueryLine35At0) == "cdmaw.com"
  {
  }

  lemma Answer1Line35At4()
    ensures Answer(CandidateKeys1, QueryLine35At4) == ""
  {
  }

  lemma Answer1Line35()
    ensures Answer(CandidateKeys1, QueryLine35) == "cdmaw.com"
  {
    Answer1Line35At0();
    Answer1Line35At4();
    AnswerAppend(CandidateKeys1, QueryLine35At0, QueryLine35At4);
  }

  /** main.cc line 35:
      http://translate.baiducontent.com/transpage?cb=translateCallback&ie=utf8&source=url&query=cdmaw.com&from=en&to=zh&token=&monLang=zh
      gives "cdmaw.com". */
  lemma Extract1Line35(path: string)
    requires '?' !in path
    ensures Extract(CandidateKeys1, path + "?" + QueryText(QueryLine35)) == "cdmaw.com"
  {
    QueryLine35WellFormed();
    ExtractOfSegments(CandidateKeys1, path, QueryLine35);
    Answer1Line35();
  }

  /** The query url=http%3A%2F%2Fwww.so.com&from=en&to=zh */
  const QueryLine36: seq<Segment> := [
    Pair("url", "http%3A%2F%2Fwww.so.com"),
    Pair("from", "en"),
    Pair("to", "zh")]

  /** "http%3A%2F%2Fwww.so.com" holds no '&'. */
  lemma NoAmpHttp3a2f2fwwwSoCom()
    ensures '&' !in "http%3A%2F%2Fwww.so.com"
  {
  }

  lemma QueryLine36WellFormed()
    ensures forall g | g in QueryLine36 :: WellFormed(g)
  {
    NoAmpHttp3a2f2fwwwSoCom();
    PairOk("url", "http%3A%2F%2Fwww.so.com");
    PairOk("from", "en");
    PairOk("to", "zh");
  }

  lemma Answer1Line36()
    ensures Answer(CandidateKeys1, QueryLine36) == "http%3A%2F%2Fwww.so.com"
  {
  }

  /** main.cc line 36:
      http://fanyi.baidu.com/transpage?url=http%3A%2F%2Fwww.so.com&from=en&to=zh
      gives "http%3A%2F%2Fwww.so.com". */
  lemma Extract1Line36(path: string)
    requires '?' !in path
    ensures Extract(CandidateKeys1, path + "?" + QueryText(QueryLine36)) == "http%3A%2F%2Fwww.so.com"
  {
    QueryLine36WellFormed();
    ExtractOfSegments(CandidateKeys1, path, QueryLine36);
    Answer1Line36();
  }

  /** The query from=&to=zh-chs&query=http://hnujug.com/&xxx=t */
  const QueryLine37: seq<Segment> := [
    Pair("from", ""),
    Pair("to", "zh-chs"),
    Pair("query", "http://hnujug.com/"),
    Pair("xxx", "t")]

  lemma QueryLine37WellFormed()
    ensures forall g | g in QueryLine37 :: WellFormed(g)
  {
    PairOk("from", "");
    PairOk("to", "zh-chs");
    NoAmpHttpHnujugCom();
    PairOk("query", "http://hnujug.com/");
    PairOk("xxx", "t");
  }

  lemma Answer1Line37()
    ensures Answer(CandidateKeys1, QueryLine37) == "http://hnujug.com/"
  {
  }

  /** main.cc line 37:
      http://www.microsofttranslator.com/bv.aspx?from=&to=zh-chs&query=http://hnujug.com/&xxx=t
      gives "http://hnujug.com/". */
  lemma Extract1Line37(path: string)
    requires '?' !in path
    ensures Extract(CandidateKeys1, path + "?" + QueryText(QueryLine37)) == "http://hnujug.com/"
  {
    QueryLine37WellFormed();
    ExtractOfSegments(CandidateKeys1, path, QueryLine37);
    Answer1Line37();
  }

  /** The query ??&from=&to=zh-chs&xxx&query */
  const QueryLine78: seq<Segment> := [
    Bare("??"),
    Pair("from", ""),
    Pair("to", "zh-chs"),
    Bare("xxx"),
    Bare("query")]

  lemma QueryLine78Part0()
    ensures WellFormed(Bare("??"))
      && WellFormed(Pair("from", ""))
      && WellFormed(Pair("to", "zh-chs"))
      && WellFormed(Bare("xxx"))
  {
    BareOk("??");
    PairOk("from", "");
    PairOk("to", "zh-chs");
    BareOk("xxx");
  }

  lemma QueryLine78Part1()
    ensures WellFormed(Bare("query"))
  {
    BareOk("query");
  }

  lemma QueryLine78WellFormed()
    ensures forall g | g in QueryLine78 :: WellFormed(g)
  {
    QueryLine78Part0();
    QueryLine78Part1();
  }

  lemma Answer2Line78()
    ensures Answer(CandidateKeys2, QueryLine78) == ""
  {
  }

  /** main.cc line 78:
      http://www.microsofttranslator.com/bv.aspx???&from=&to=zh-chs&xxx&query
      gives "". */
  lemma Extract2Line78(path: string)
    requires '?' !in path
    ensures Extract(CandidateKeys2, path + "?" + QueryText(QueryLine78)) == ""
  {
    QueryLine78WellFormed();
    ExtractOfSegments(CandidateKeys2, path, QueryLine78);
    Answer2Line78();
  }

  /** The query ?from=&to=zh-chs&xxx&query */
  const QueryLine79: seq<Segment> := [
    Pair("?from", ""),
    Pair("to", "zh-chs"),
    Bare("xxx"),
    Bare("query")]

  lemma QueryLine79WellFormed()
    ensures forall g | g in QueryLine79 :: WellFormed(g)
  {
    PairOk("?from", "");
    PairOk("to", "zh-chs");
    BareOk("xxx");
    BareOk("query");
  }

  lemma Answer2Line79()
    ensures Answer(CandidateKeys2, QueryLine79) == ""
  {
  }

  /** main.cc line 79:
      http://www.microsofttranslator.com/bv.aspx??from=&to=zh-chs&xxx&query
      gives "". */
  lemma Extract2Line79(path: string)
    requires '?' !in path
    ensures Extract(CandidateKeys2, path + "?" + QueryText(QueryLine79)) == ""
  {
    QueryLine79WellFormed();
    ExtractOfSegments(CandidateKeys2, path, QueryLine79);
    Answer2Line79();
  }

  /** The query from=&to=zh-chs&xxx&query */
  const QueryLine80: seq<Segment> := [
    Pair("from", ""),
    Pair("to", "zh-chs"),
    Bare("xxx"),
    Bare("query")]

  lemma QueryLine80WellFormed()
    ensures forall g | g in QueryLine80 :: WellFormed(g)
  {
    PairOk("from", "");
    PairOk("to", "zh-chs");
    BareOk("xxx");
    BareOk("query");
  }

  lemma Answer2Line80()
    ensures Answer(CandidateKeys2, QueryLine80) == ""
  {
  }

  /** main.cc line 80:
      http://www.microsofttranslator.com/bv.aspx?from=&to=zh-chs&xxx&query
      gives "". */
  lemma Extract2Line80(path: string)
    requires '?' !in path
    ensures Extract(CandidateKeys2, path + "?" + QueryText(QueryLine80)) == ""
  {
    QueryLine80WellFormed();
    ExtractOfSegments(CandidateKeys2, path, QueryLine80);
    Answer2Line80();
  }

  /** The query from=&to=zh-chs&=xxx&query */
  const QueryLine81: seq<Segment> := [
    Pair("from", ""),
    Pair("to", "zh-chs"),
    Pair("", "xxx"),
    Bare("query")]

  lemma QueryLine81WellFormed()
    ensures forall g | g in QueryLine81 :: WellFormed(g)
  {
    PairOk("from", "");
    PairOk("to", "zh-chs");
    PairOk("", "xxx");
    BareOk("query");
  }

  lemma Answer2Line81()
    ensures Answer(CandidateKeys2, QueryLine81) == ""
  {
  }

  /** main.cc line 81:
      http://www.microsofttranslator.com/bv.aspx?from=&to=zh-chs&=xxx&query
      gives "". */
  lemma Extract2Line81(path: string)
    requires '?' !in path
    ensures Extract(CandidateKeys2, path + "?" + QueryText(QueryLine81)) == ""
  {
    QueryLine81WellFormed();
    ExtractOfSegments(CandidateKeys2, path, QueryLine81);
    Answer2Line81();
  }

  /** The query from=&to=zh-chs&xxx=&query */
  const QueryLine82: seq<Segment> := [
    Pair("from", ""),
    Pair("to", "zh-chs"),
    Pair("xxx", ""),
    Bare("query")]

  lemma QueryLine82WellFormed()
    ensures forall g | g in QueryLine82 :: WellFormed(g)
  {
    PairOk("from", "");
    PairOk("to", "zh-chs");
    PairOk("xxx", "");
    BareOk("query");
  }

  lemma Answer2Line82()
    ensures Answer(CandidateKeys2, QueryLine82) == ""
  {
  }

  /** main.cc line 82:
      http://www.microsofttranslator.com/bv.aspx?from=&to=zh-chs&xxx=&query
      gives "". */
  lemma Extract2Line82(path: string)
    requires '?' !in path
    ensures Extract(CandidateKeys2, path + "?" + QueryText(QueryLine82)) == ""
  {
    QueryLine82WellFormed();
    ExtractOfSegments(CandidateKeys2, path, QueryLine82);
    Answer2Line82();
  }

  /** The query &from=&to=zh-chs&xxx=&query */
  const QueryLine83: seq<Segment> := [
    Bare(""),
    Pair("from", ""),
    Pair("to", "zh-chs"),
    Pair("xxx", ""),
    Bare("query")]

  lemma QueryLine83Part0()
    ensures WellFormed(Bare(""))
      && WellFormed(Pair("from", ""))
      && WellFormed(Pair("to", "zh-chs"))
      && WellFormed(Pair("xxx", ""))
  {
    BareOk("");
    PairOk("from", "");
    PairOk("to", "zh-chs");
    PairOk("xxx", "");
  }

  lemma QueryLine83Part1()
    ensures WellFormed(Bare("query"))
  {
    BareOk("query");
  }

  lemma QueryLine83WellFormed()
    ensures forall g | g in QueryLine83 :: WellFormed(g)
  {
    QueryLine83Part0();
    QueryLine83Part1();
  }

  lemma Answer2Line83()
    ensures Answer(CandidateKeys2, QueryLine83) == ""
  {
  }

  /** main.cc line 83:
      http://www.microsofttranslator.com/bv.aspx?&from=&to=zh-chs&xxx=&query
      gives "". */
  lemma Extract2Line83(path: string)
    requires '?' !in path
    ensures Extract(CandidateKeys2, path + "?" + QueryText(QueryLine83)) == ""
  {
    QueryLine83WellFormed();
    ExtractOfSegments(CandidateKeys2, path, QueryLine83);
    Answer2Line83();
  }

  /** The query from=&to=zh-chs&xxx&query=http://hnujug.com/ */
  const QueryLine84: seq<Segment> := [
    Pair("from", ""),
    Pair("to", "zh-chs"),
    Bare("xxx"),
    Pair("query", "http://hnujug.com/")]

  lemma QueryLine84WellFormed()
    ensures forall g | g in QueryLine84 :: WellFormed(g)
  {
    PairOk("from", "");
    PairOk("to", "zh-chs");
    BareOk("xxx");
    NoAmpHttpHnujugCom();
    PairOk("query", "http://hnujug.com/");
  }

  lemma Answer2Line84()
    ensures Answer(CandidateKeys2, QueryLine84) == "http://hnujug.com/"
  {
  }

  /** main.cc line 84:
      http://www.microsofttranslator.com/bv.aspx?from=&to=zh-chs&xxx&query=http://hnujug.com/
      gives "http://hnujug.com/". */
  lemma Extract2Line84(path: string)
    requires '?' !in path
    ensures Extract(CandidateKeys2, path + "?" + QueryText(QueryLine84)) == "http://hnujug.com/"
  {
    QueryLine84WellFormed();
    ExtractOfSegments(CandidateKeys2, path, QueryLine84);
    Answer2Line84();
  }

  /** The query &from=&to=zh-chs&xxx&query=http://hnujug.com/ */
  const QueryLine85: seq<Segment> := [
    Bare(""),
    Pair("from", ""),
    Pair("to", "zh-chs"),
    Bare("xxx"),
    Pair("query", "http://hnujug.com/")]

  lemma QueryLine85Part0()
    ensures WellFormed(Bare(""))
      && WellFormed(Pair("from", ""))
      && WellFormed(Pair("to", "zh-chs"))
      && WellFormed(Bare("xxx"))
  {
    BareOk("");
    PairOk("from", "");
    PairOk("to", "zh-chs");
    BareOk("xxx");
  }

  lemma QueryLine85Part1()
    ensures WellFormed(Pair("query", "http://hnujug.com/"))
  {
    NoAmpHttpHnujugCom();
    PairOk("query", "http://hnujug.com/");
  }

  lemma QueryLine85WellFormed()
    ensures forall g | g in QueryLine85 :: WellFormed(g)
  {
    QueryLine85Part0();
    QueryLine85Part1();
  }

  lemma Answer2Line85()
    ensures Answer(CandidateKeys2, QueryLine85) == "http://hnujug.com/"
  {
  }

  /** main.cc line 85:
      http://www.microsofttranslator.com/bv.aspx?&from=&to=zh-chs&xxx&query=http://hnujug.com/
      gives "http://hnujug.com/". */
  lemma Extract2Line85(path: string)
    requires '?' !in path
    ensures Extract(CandidateKeys2, path + "?" + QueryText(QueryLine85)) == "http://hnujug.com/"
  {
    QueryLine85WellFormed();
    ExtractOfSegments(CandidateKeys2, path, QueryLine85);
    Answer2Line85();
  }

  /** Segments 0 to 3 of the query &from=&&=zh-chs&xxx&query=http://hnujug.com/ */
  const QueryLine86At0: seq<Segment> := [
    Bare(""),
    Pair("from", ""),
    Bare(""),
    Pair("", "zh-chs")]

  lemma QueryLine86At0WellFormed()
    ensures forall g | g in QueryLine86At0 :: WellFormed(g)
  {
    BareOk("");
    PairOk("from", "");
    BareOk("");
    PairOk("", "zh-chs");
  }

  /** Segments 4 to 5 of the query &from=&&=zh-chs&xxx&query=http://hnujug.com/ */
  const QueryLine86At4: seq<Segment> := [
    Bare("xxx"),
    Pair("query", "http://hnujug.com/")]

  lemma QueryLine86At4WellFormed()
    ensures forall g | g in QueryLine86At4 :: WellFormed(g)
  {
    BareOk("xxx");
    NoAmpHttpHnujugCom();
    PairOk("query", "http://hnujug.com/");
  }

  /** The query &from=&&=zh-chs&xxx&query=http://hnujug.com/ */
  const QueryLine86: seq<Segment> := QueryLine86At0 + QueryLine86At4

  lemma QueryLine86WellFormed()
    ensures forall g | g in QueryLine86 :: WellFormed(g)
  {
    QueryLine86At0WellFormed();
    QueryLine86At4WellFormed();
  }

  lemma Answer2Line86At0()
    ensures Answer(CandidateKeys2, QueryLine86At0) == ""
  {
  }

  lemma Answer2Line86At4()
    ensures Answer(CandidateKeys2, QueryLine86At4) == "http://hnujug.com/"
  {
  }

  lemma Answer2Line86()
    ensures Answer(CandidateKeys2, QueryLine86) == "http://hnujug.com/"
  {
    Answer2Line86At0();
    Answer2Line86At4();
    AnswerAppend(CandidateKeys2, QueryLine86At0, QueryLine86At4);
  }

  /** main.cc line 86:
      http://www.microsofttranslator.com/bv.aspx?&from=&&=zh-chs&xxx&query=http://hnujug.com/
      gives "http://hnujug.com/". */
  lemma Extract2Line86(path: string)
    requires '?' !in path
    ensures Extract(CandidateKeys2, path + "?" + QueryText(QueryLine86)) == "http://hnujug.com/"
  {
    QueryLine86WellFormed();
    ExtractOfSegments(CandidateKeys2, path, QueryLine86);
    Answer2Line86();
  }

  /** The query from=&to=zh-chs&xxx&query= */
  const QueryLine87: seq<Segment> := [
    Pair("from", ""),
    Pair("to", "zh-chs"),
    Bare("xxx"),
    Pair("query", "")]

  lemma QueryLine87WellFormed()
    ensures forall g | g in QueryLine87 :: WellFormed(g)
  {
    PairOk("from", "");
    PairOk("to", "zh-chs");
    BareOk("xxx");
    PairOk("query", "");
  }

  lemma Answer2Line87()
    ensures Answer(CandidateKeys2, QueryLine87) == ""
  {
  }

  /** main.cc line 87:
      http://www.microsofttranslator.com/bv.aspx?from=&to=zh-chs&xxx&query=
      gives "". */
  lemma Extract2Line87(path: string)
    requires '?' !in path
    ensures Extract(CandidateKeys2, path + "?" + QueryText(QueryLine87)) == ""
  {
    QueryLine87WellFormed();
    ExtractOfSegments(CandidateKeys2, path, QueryLine87);
    Answer2Line87();
  }

  /** The query from=&to=zh-chs&xxx&query=&yyy */
  const QueryLine88: seq<Segment> := [
    Pair("from", ""),
    Pair("to", "zh-chs"),
    Bare("xxx"),
    Pair("query", ""),
    Bare("yyy")]

  lemma QueryLine88Part0()
    ensures WellFormed(Pair("from", ""))
      && WellFormed(Pair("to", "zh-chs"))
      && WellFormed(Bare("xxx"))
      && WellFormed(Pair("query", ""))
  {
    PairOk("from", "");
    PairOk("to", "zh-chs");
    BareOk("xxx");
    PairOk("query", "");
  }

  lemma QueryLine88Part1()
    ensures WellFormed(Bare("yyy"))
  {
    BareOk("yyy");
  }

  lemma QueryLine88WellFormed()
    ensures forall g | g in QueryLine88 :: WellFormed(g)
  {
    QueryLine88Part0();
    QueryLine88Part1();
  }

  lemma Answer2Line88()
    ensures Answer(CandidateKeys2, QueryLine88) == ""
  {
  }

  /** main.cc line 88:
      http://www.microsofttranslator.com/bv.aspx?from=&to=zh-chs&xxx&query=&yyy
      gives "". */
  lemma Extract2Line88(path: string)
    requires '?' !in path
    ensures Extract(CandidateKeys2, path + "?" + QueryText(QueryLine88)) == ""
  {
    QueryLine88WellFormed();
    ExtractOfSegments(CandidateKeys2, path, QueryLine88);
    Answer2Line88();
  }

  /** The query from=&to=zh-chs&xxx&query=&yyy=xx */
  const QueryLine89: seq<Segment> := [
    Pair("from", ""),
    Pair("to", "zh-chs"),
    Bare("xxx"),
    Pair("query", ""),
    Pair("yyy", "xx")]

  lemma QueryLine89Part0()
    ensures WellFormed(Pair("from", ""))
      && WellFormed(Pair("to", "zh-chs"))
      && WellFormed(Bare("xxx"))
      && WellFormed(Pair("query", ""))
  {
    PairOk("from", "");
    PairOk("to", "zh-chs");
    BareOk("xxx");
    PairOk("query", "");
  }

  lemma QueryLine89Part1()
    ensures WellFormed(Pair("yyy", "xx"))
  {
    PairOk("yyy", "xx");
  }

  lemma QueryLine89WellFormed()
    ensures forall g | g in QueryLine89 :: WellFormed(g)
  {
    QueryLine89Part0();
    QueryLine89Part1();
  }

  lemma Answer2Line89()
    ensures Answer(CandidateKeys2, QueryLine89) == ""
  {
  }

  /** main.cc line 89:
      http://www.microsofttranslator.com/bv.aspx?from=&to=zh-chs&xxx&query=&yyy=xx
      gives "". */
  lemma Extract2Line89(path: string)
    requires '?' !in path
    ensures Extract(CandidateKeys2, path + "?" + QueryText(QueryLine89)) == ""
  {
    QueryLine89WellFormed();
    ExtractOfSegments(CandidateKeys2, path, QueryLine89);
    Answer2Line89();
  }

  /** The query from=&to=zh-chs&xxx&query=&yyy=xxyyy */
  const QueryLine90: seq<Segment> := [
    Pair("from", ""),
    Pair("to", "zh-chs"),
    Bare("xxx"),
    Pair("query", ""),
    Pair("yyy", "xxyyy")]

  lemma QueryLine90Part0()
    ensures WellFormed(Pair("from", ""))
      && WellFormed(Pair("to", "zh-chs"))
      && WellFormed(Bare("xxx"))
      && WellFormed(Pair("query", ""))
  {
    PairOk("from", "");
    PairOk("to", "zh-chs");
    BareOk("xxx");
    PairOk("query", "");
  }

  lemma QueryLine90Part1()
    ensures WellFormed(Pair("yyy", "xxyyy"))
  {
    PairOk("yyy", "xxyyy");
  }

  lemma QueryLine90WellFormed()
    ensures forall g | g in QueryLine90 :: WellFormed(g)
  {
    QueryLine90Part0();
    QueryLine90Part1();
  }

  lemma Answer2Line90()
    ensures Answer(CandidateKeys2, QueryLine90) == ""
  {
  }

  /** main.cc line 90:
      http://www.microsofttranslator.com/bv.aspx?from=&to=zh-chs&xxx&query=&yyy=xxyyy
      gives "". */
  lemma Extract2Line90(path: string)
    requires '?' !in path
    ensures Extract(CandidateKeys2, path + "?" + QueryText(QueryLine90)) == ""
  {
    QueryLine90WellFormed();
    ExtractOfSegments(CandidateKeys2, path, QueryLine90);
    Answer2Line90();
  }

  lemma Answer2Line91()
    ensures Answer(CandidateKeys2, QueryLine34) == "http://hnujug.com/"
  {
  }

  /** main.cc lines 91, 121:
      http://www.microsofttranslator.com/bv.aspx?from=&to=zh-chs&query=http://hnujug.com/
      gives "http://hnujug.com/". */
  lemma Extract2Line91(path: string)
    requires '?' !in path
    ensures Extract(CandidateKeys2, path + "?" + QueryText(QueryLine34)) == "http://hnujug.com/"
  {
    QueryLine34WellFormed();
    ExtractOfSegments(CandidateKeys2, path, QueryLine34);
    Answer2Line91();
  }

  /** Segments 0 to 3 of the query cname=cmcc1125_5&pic=1&ctype=a&mapno=21&%23&curl=%68ttp://23.80.77.125/22/e/4 */
  const QueryLine92At0: seq<Segment> := [
    Pair("cname", "cmcc1125_5"),
    Pair("pic", "1"),
    Pair("ctype", "a"),
    Pair("mapno", "21")]

  /** "cmcc1125_5" holds no '&'. */
  lemma NoAmpCmcc11255()
    ensures '&' !in "cmcc1125_5"
  {
  }

  lemma QueryLine92At0WellFormed()
    ensures forall g | g in QueryLine92At0 :: WellFormed(g)
  {
    NoAmpCmcc11255();
    PairOk("cname", "cmcc1125_5");
    PairOk("pic", "1");
    PairOk("ctype", "a");
    PairOk("mapno", "21");
  }

  /** Segments 4 to 5 of the query cname=cmcc1125_5&pic=1&ctype=a&mapno=21&%23&curl=%68ttp://23.80.77.125/22/e/4 */
  const QueryLine92At4: seq<Segment> := [
    Bare("%23"),
    Pair("curl", "%68ttp://23.80.77.125/22/e/4")]

  /** "%68ttp://23.80.77.125/22/e/4" holds no '&'. */
  lemma NoAmp68ttp23807712522E4()
    ensures '&' !in "%68ttp://23.80.77.125/22/e/4"
  {
  }

  lemma QueryLine92At4WellFormed()
    ensures forall g | g in QueryLine92At4 :: WellFormed(g)
  {
    BareOk("%23");
    NoAmp68ttp23807712522E4();
    PairOk("curl", "%68ttp://23.80.77.125/22/e/4");
  }

  /** The query cname=cmcc1125_5&pic=1&ctype=a&mapno=21&%23&curl=%68ttp://23.80.77.125/22/e/4 */
  const QueryLine92: seq<Segment> := QueryLine92At0 + QueryLine92At4

  lemma QueryLine92WellFormed()
    ensures forall g | g in QueryLine92 :: WellFormed(g)
  {
    QueryLine92At0WellFormed();
    QueryLine92At4WellFormed();
  }

  lemma Answer2Line92At0()
    ensures Answer(CandidateKeys2, QueryLine92At0) == ""
  {
  }

  lemma Answer2Line92At4()
    ensures Answer(CandidateKeys2, QueryLine92At4) == "%68ttp://23.80.77.125/22/e/4"
  {
  }

  lemma Answer2Line92()
    ensures Answer(CandidateKeys2, QueryLine92) == "%68ttp://23.80.77.125/22/e/4"
  {
    Answer2Line92At0();
    Answer2Line92At4();
    AnswerAppend(CandidateKeys2, QueryLine92At0, QueryLine92At4);
  }

  /** main.cc lines 92, 111:
      http://www.ddmap.com/mstmap50007/g_adv_loc.jsp?cname=cmcc1125_5&pic=1&ctype=a&mapno=21&%23&curl=%68ttp://23.80.77.125/22/e/4
      gives "%68ttp://23.80.77.125/22/e/4". */
  lemma Extract2Line92(path: string)
    requires '?' !in path
    ensures Extract(CandidateKeys2, path + "?" + QueryText(QueryLine92)) == "%68ttp://23.80.77.125/22/e/4"
  {
    QueryLine92WellFormed();
    ExtractOfSegments(CandidateKeys2, path, QueryLine92);
    Answer2Line92();
  }

  /** The query &%23&url=%68ttp%3A//23.80.77.123/22/e/4 */
  const QueryLine93: seq<Segment> := [
    Bare(""),
    Bare("%23"),
    Pair("url", "%68ttp%3A//23.80.77.123/22/e/4")]

  /** "%68ttp%3A//23.80.77.123/22/e/4" holds no '&'. */
  lemma NoAmp68ttp3a23807712322E4()
    ensures '&' !in "%68ttp%3A//23.80.77.123/22/e/4"
  {
  }

  lemma QueryLine93WellFormed()
    ensures forall g | g in QueryLine93 :: WellFormed(g)
  {
    BareOk("");
    BareOk("%23");
    NoAmp68ttp3a23807712322E4();
    PairOk("url", "%68ttp%3A//23.80.77.123/22/e/4");
  }

  lemma Answer2Line93()
    ensures Answer(CandidateKeys2, QueryLine93) == "%68ttp%3A//23.80.77.123/22/e/4"
  {
  }

  /** main.cc lines 93, 113:
      http://lk.brand.sogou.com/svc/r.php?&%23&url=%68ttp%3A//23.80.77.123/22/e/4
      gives "%68ttp%3A//23.80.77.123/22/e/4". */
  lemma Extract2Line93(path: string)
    requires '?' !in path
    ensures Extract(CandidateKeys2, path + "?" + QueryText(QueryLine93)) == "%68ttp%3A//23.80.77.123/22/e/4"
  {
    QueryLine93WellFormed();
    ExtractOfSegments(CandidateKeys2, path, QueryLine93);
    Answer2Line93();
  }

  lemma Answer2Line94()
    ensures Answer(CandidateKeys2, QueryLine24) == "http://hnujug.com/"
  {
  }

  /** main.cc lines 94, 104:
      http://www.microsofttranslator.com/bv.aspx?from=&to=zh-chs&a=http://hnujug.com/
      gives "http://hnujug.com/". */
  lemma Extract2Line94(path: string)
    requires '?' !in path
    ensures Extract(CandidateKeys2, path + "?" + QueryText(QueryLine24)) == "http://hnujug.com/"
  {
    QueryLine24WellFormed();
    ExtractOfSegments(CandidateKeys2, path, QueryLine24);
    Answer2Line94();
  }

  /** The query from=&to=zh-chs&a=http://hnujug.com/&xxx=kvpair_token */
  const QueryLine95: seq<Segment> := [
    Pair("from", ""),
    Pair("to", "zh-chs"),
    Pair("a", "http://hnujug.com/"),
    Pair("xxx", "kvpair_token")]

  /** "kvpair_token" holds no '&'. */
  lemma NoAmpKvpairToken()
    ensures '&' !in "kvpair_token"
  {
  }

  lemma QueryLine95WellFormed()
    ensures forall g | g in QueryLine95 :: WellFormed(g)
  {
    PairOk("from", "");
    PairOk("to", "zh-chs");
    NoAmpHttpHnujugCom();
    PairOk("a", "http://hnujug.com/");
    NoAmpKvpairToken();
    PairOk("xxx", "kvpair_token");
  }

  lemma Answer2Line95()
    ensures Answer(CandidateKeys2, QueryLine95) == "http://hnujug.com/"
  {
  }

  /** main.cc lines 95, 105:
      http://www.microsofttranslator.com/bv.aspx?from=&to=zh-chs&a=http://hnujug.com/&xxx=kvpair_token
      gives "http://hnujug.com/". */
  lemma Extract2Line95(path: string)
    requires '?' !in path
    ensures Extract(CandidateKeys2, path + "?" + QueryText(QueryLine95)) == "http://hnujug.com/"
  {
    QueryLine95WellFormed();
    ExtractOfSegments(CandidateKeys2, path, QueryLine95);
    Answer2Line95();
  }

  lemma Answer2Line96()
    ensures Answer(CandidateKeys2, QueryLine26) == "http://hnujug.com/"
  {
  }

  /** main.cc lines 96, 106:
      http://www.microsofttranslator.com/bv.aspx?a=http://hnujug.com/
      gives "http://hnujug.com/". */
  lemma Extract2Line96(path: string)
    requires '?' !in path
    ensures Extract(CandidateKeys2, path + "?" + QueryText(QueryLine26)) == "http://hnujug.com/"
  {
    QueryLine26WellFormed();
    ExtractOfSegments(CandidateKeys2, path, QueryLine26);
    Answer2Line96();
  }

  /** The query a=http://hnujug.com/&xxx=kvpair_token */
  const QueryLine97: seq<Segment> := [
    Pair("a", "http://hnujug.com/"),
    Pair("xxx", "kvpair_token")]

  lemma QueryLine97WellFormed()
    ensures forall g | g in QueryLine97 :: WellFormed(g)
  {
    NoAmpHttpHnujugCom();
    PairOk("a", "http://hnujug.com/");
    NoAmpKvpairToken();
    PairOk("xxx", "kvpair_token");
  }

  lemma Answer2Line97()
    ensures Answer(CandidateKeys2, QueryLine97) == "http://hnujug.com/"
  {
  }

  /** main.cc lines 97, 107:
      http://www.microsofttranslator.com/bv.aspx?a=http://hnujug.com/&xxx=kvpair_token
      gives "http://hnujug.com/". */
  lemma Extract2Line97(path: string)
    requires '?' !in path
    ensures Extract(CandidateKeys2, path + "?" + QueryText(QueryLine97)) == "http://hnujug.com/"
  {
    QueryLine97WellFormed();
    ExtractOfSegments(CandidateKeys2, path, QueryLine97);
    Answer2Line97();
  }

  lemma Answer2Line98()
    ensures Answer(CandidateKeys2, QueryLine28) == "http://hnujug.com/"
  {
  }

  /** main.cc lines 98, 108:
      http://www.microsofttranslator.com/bv.aspx?from=&to=zh-chs&u=http://hnujug.com/
      gives "http://hnujug.com/". */
  lemma Extract2Line98(path: string)
    requires '?' !in path
    ensures Extract(CandidateKeys2, path + "?" + QueryText(QueryLine28)) == "http://hnujug.com/"
  {
    QueryLine28WellFormed();
    ExtractOfSegments(CandidateKeys2, path, QueryLine28);
    Answer2Line98();
  }

  /** The query from=&to=zh-chs&u=http://hnujug.com/&xxx=kvpair_token */
  const QueryLine99: seq<Segment> := [
    Pair("from", ""),
    Pair("to", "zh-chs"),
    Pair("u", "http://hnujug.com/"),
    Pair("xxx", "kvpair_token")]

  lemma QueryLine99WellFormed()
    ensures forall g | g in QueryLine99 :: WellFormed(g)
  {
    PairOk("from", "");
    PairOk("to", "zh-chs");
    NoAmpHttpHnujugCom();
    PairOk("u", "http://hnujug.com/");
    NoAmpKvpairToken();
    PairOk("xxx", "kvpair_token");
  }

  lemma Answer2Line99()
    ensures Answer(CandidateKeys2, QueryLine99) == "http://hnujug.com/"
  {
  }

  /** main.cc lines 99, 109:
      http://www.microsofttranslator.com/bv.aspx?from=&to=zh-chs&u=http://hnujug.com/&xxx=kvpair_token
      gives "http://hnujug.com/". */
  lemma Extract2Line99(path: string)
    requires '?' !in path
    ensures Extract(CandidateKeys2, path + "?" + QueryText(QueryLine99)) == "http://hnujug.com/"
  {
    QueryLine99WellFormed();
    ExtractOfSegments(CandidateKeys2, path, QueryLine99);
    Answer2Line99();
  }

  lemma Answer2Line100()
    ensures Answer(CandidateKeys2, QueryLine30) == ""
  {
  }

  /** main.cc lines 100, 110:
      http://www.microsofttranslator.com/bv.aspx?from=&to=zh-chs
      gives "". */
  lemma Extract2Line100(path: string)
    requires '?' !in path
    ensures Extract(CandidateKeys2, path + "?" + QueryText(QueryLine30)) == ""
  {
    QueryLine30WellFormed();
    ExtractOfSegments(CandidateKeys2, path, QueryLine30);
    Answer2Line100();
  }

  /** The query from=&to=zh-chs&uu=http://hnujug.com/&xxx=kvpair_token */
  const QueryLine101: seq<Segment> := [
    Pair("from", ""),
    Pair("to", "zh-chs"),
    Pair("uu", "http://hnujug.com/"),
    Pair("xxx", "kvpair_token")]

  lemma QueryLine101WellFormed()
    ensures forall g | g in QueryLine101 :: WellFormed(g)
  {
    PairOk("from", "");
    PairOk("to", "zh-chs");
    NoAmpHttpHnujugCom();
    PairOk("uu", "http://hnujug.com/");
    NoAmpKvpairToken();
    PairOk("xxx", "kvpair_token");
  }

  lemma Answer2Line101()
    ensures Answer(CandidateKeys2, QueryLine101) == ""
  {
  }

  /** main.cc lines 101, 103, 118, 120:
      http://www.microsofttranslator.com/bv.aspx?from=&to=zh-chs&uu=http://hnujug.com/&xxx=kvpair_token
      gives "". */
  lemma Extract2Line101(path: string)
    requires '?' !in path
    ensures Extract(CandidateKeys2, path + "?" + QueryText(QueryLine101)) == ""
  {
    QueryLine101WellFormed();
    ExtractOfSegments(CandidateKeys2, path, QueryLine101);
    Answer2Line101();
  }

  lemma Answer2Line102()
    ensures Answer(CandidateKeys2, QueryLine32) == ""
  {
  }

  /** main.cc lines 102, 119:
      http://www.microsofttranslator.com/bv.aspx?from=&to=zh-chs&u
      gives "". */
  lemma Extract2Line102(path: string)
    requires '?' !in path
    ensures Extract(CandidateKeys2, path + "?" + QueryText(QueryLine32)) == ""
  {
    QueryLine32WellFormed();
    ExtractOfSegments(CandidateKeys2, path, QueryLine32);
    Answer2Line102();
  }

  /** The query ad_id=11&uri=is.gd/td03XF */
  const QueryLine112: seq<Segment> := [
    Pair("ad_id", "11"),
    Pair("uri", "is.gd/td03XF")]

  /** "is.gd/td03XF" holds no '&'. */
  lemma NoAmpIsGdTd03xf()
    ensures '&' !in "is.gd/td03XF"
  {
  }

  lemma QueryLine112WellFormed()
    ensures forall g | g in QueryLine112 :: WellFormed(g)
  {
    PairOk("ad_id", "11");
    NoAmpIsGdTd03xf();
    PairOk("uri", "is.gd/td03XF");
  }

  lemma Answer2Line112()
    ensures Answer(CandidateKeys2, QueryLine112) == "is.gd/td03XF"
  {
  }

  /** main.cc line 112:
      http://shop.hbtv.com.cn/affiche.php?ad_id=11&uri=is.gd/td03XF
      gives "is.gd/td03XF". */
  lemma Extract2Line112(path: string)
    requires '?' !in path
    ensures Extract(CandidateKeys2, path + "?" + QueryText(QueryLine112)) == "is.gd/td03XF"
  {
    QueryLine112WellFormed();
    ExtractOfSegments(CandidateKeys2, path, QueryLine112);
    Answer2Line112();
  }

  /** Segments 0 to 3 of the query z=hexun&la=0&si=1&cg=64&c=819&ci=88&or=843&l=3456&bg=3456&b=3443&%23&u=http://23.80.77.56/22/e/4 */
  const QueryLine114At0: seq<Segment> := [
    Pair("z", "hexun"),
    Pair("la", "0"),
    Pair("si", "1"),
    Pair("cg", "64")]

  lemma QueryLine114At0WellFormed()
    ensures forall g | g in QueryLine114At0 :: WellFormed(g)
  {
    PairOk("z", "hexun");
    PairOk("la", "0");
    PairOk("si", "1");
    PairOk("cg", "64");
  }

  /** Segments 4 to 7 of the query z=hexun&la=0&si=1&cg=64&c=819&ci=88&or=843&l=3456&bg=3456&b=3443&%23&u=http://23.80.77.56/22/e/4 */
  const QueryLine114At4: seq<Segment> := [
    Pair("c", "819"),
    Pair("ci", "88"),
    Pair("or", "843"),
    Pair("l", "3456")]

  lemma QueryLine114At4WellFormed()
    ensures forall g | g in QueryLine114At4 :: WellFormed(g)
  {
    PairOk("c", "819");
    PairOk("ci", "88");
    PairOk("or", "843");
    PairOk("l", "3456");
  }

  /** Segments 8 to 11 of the query z=hexun&la=0&si=1&cg=64&c=819&ci=88&or=843&l=3456&bg=3456&b=3443&%23&u=http://23.80.77.56/22/e/4 */
  const QueryLine114At8: seq<Segment> := [
    Pair("bg", "3456"),
    Pair("b", "3443"),
    Bare("%23"),
    Pair("u", "http://23.80.77.56/22/e/4")]

  /** "http://23.80.77.56/22/e/4" holds no '&'. */
  lemma NoAmpHttp2380775622E4()
    ensures '&' !in "http://23.80.77.56/22/e/4"
  {
  }

  lemma QueryLine114At8WellFormed()
    ensures forall g | g in QueryLine114At8 :: WellFormed(g)
  {
    PairOk("bg", "3456");
    PairOk("b", "3443");
    BareOk("%23");
    NoAmpHttp2380775622E4();
    PairOk("u", "http://23.80.77.56/22/e/4");
  }

  /** The query z=hexun&la=0&si=1&cg=64&c=819&ci=88&or=843&l=3456&bg=3456&b=3443&%23&u=http://23.80.77.56/22/e/4 */
  const QueryLine114: seq<Segment> := QueryLine114At0 + QueryLine114At4 + QueryLine114At8

  lemma QueryLine114WellFormed()
    ensures forall g | g in QueryLine114 :: WellFormed(g)
  {
    QueryLine114At0WellFormed();
    QueryLine114At4WellFormed();
    QueryLine114At8WellFormed();
  }

  lemma Answer2Line114At0()
    ensures Answer(CandidateKeys2, QueryLine114At0) == ""
  {
  }

  lemma Answer2Line114At4()
    ensures Answer(CandidateKeys2, QueryLine114At4) == ""
  {
  }

  lemma Answer2Line114At8()
    ensures Answer(CandidateKeys2, QueryLine114At8) == "http://23.80.77.56/22/e/4"
  {
  }

  lemma Answer2Line114()
    ensures Answer(CandidateKeys2, QueryLine114) == "http://23.80.77.56/22/e/4"
  {
    Answer2Line114At0();
    Answer2Line114At4();
    Answer2Line114At8();
    AnswerAppend(CandidateKeys2, QueryLine114At0, QueryLine114At4);
    AnswerAppend(CandidateKeys2, QueryLine114At0 + QueryLine114At4, QueryLine114At8);
  }

  /** main.cc line 114:
      http://h02.hxsame.hexun.com/c?z=hexun&la=0&si=1&cg=64&c=819&ci=88&or=843&l=3456&bg=3456&b=3443&%23&u=http://23.80.77.56/22/e/4
      gives "http://23.80.77.56/22/e/4". */
  lemma Extract2Line114(path: string)
    requires '?' !in path
    ensures Extract(CandidateKeys2, path + "?" + QueryText(QueryLine114)) == "http://23.80.77.56/22/e/4"
  {
    QueryLine114WellFormed();
    ExtractOfSegments(CandidateKeys2, path, QueryLine114);
    Answer2Line114();
  }

  /** The query url=sanlipc.1234lm.com/short/get/F34 */
  const QueryLine115: seq<Segment> := [
    Pair("url", "sanlipc.1234lm.com/s" + "hort/get/F34")]

  /** "sanlipc.1234lm.com/s" holds no '&'. */
  lemma NoAmpSanlipc1234lmComS()
    ensures '&' !in "sanlipc.1234lm.com/s"
  {
  }

  /** "hort/get/F34" holds no '&'. */
  lemma NoAmpHortGetF34()
    ensures '&' !in "hort/get/F34"
  {
  }

  lemma QueryLine115WellFormed()
    ensures forall g | g in QueryLine115 :: WellFormed(g)
  {
    NoAmpSanlipc1234lmComS();
    NoAmpHortGetF34();
    PairOk("url", "sanlipc.1234lm.com/s" + "hort/get/F34");
  }

  lemma Answer2Line115()
    ensures Answer(CandidateKeys2, QueryLine115) == "sanlipc.1234lm.com/s" + "hort/get/F34"
  {
  }

  /** main.cc line 115:
      http://spzx.hubu.edu.cn/tab/sltz.jsp?url=sanlipc.1234lm.com/short/get/F34
      gives "sanlipc.1234lm.com/short/get/F34". */
  lemma Extract2Line115(path: string)
    requires '?' !in path
    ensures Extract(CandidateKeys2, path + "?" + QueryText(QueryLine115)) == "sanlipc.1234lm.com/s" + "hort/get/F34"
  {
    QueryLine115WellFormed();
    ExtractOfSegments(CandidateKeys2, path, QueryLine115);
    Answer2Line115();
  }

  /** The query url=xp.db.hk/kvpair_token/www.taobao.com_htm.id_1973821037/QX8 */
  const QueryLine116: seq<Segment> := [
    Pair("url", "xp.db.hk/kvpair_toke" + "n/www.taobao.com_htm" + ".id_1973821037/QX8")]

  /** "xp.db.hk/kvpair_toke" holds no '&'. */
  lemma NoAmpXpDbHkKvpairToke()
    ensures '&' !in "xp.db.hk/kvpair_toke"
  {
  }

  /** "n/www.taobao.com_htm" holds no '&'. */
  lemma NoAmpNWwwTaobaoComHtm()
    ensures '&' !in "n/www.taobao.com_htm"
  {
  }

  /** ".id_1973821037/QX8" holds no '&'. */
  lemma NoAmpId1973821037Qx8()
    ensures '&' !in ".id_1973821037/QX8"
  {
  }

  lemma QueryLine116WellFormed()
    ensures forall g | g in QueryLine116 :: WellFormed(g)
  {
    NoAmpXpDbHkKvpairToke();
    NoAmpNWwwTaobaoComHtm();
    NoAmpId1973821037Qx8();
    PairOk("url", "xp.db.hk/kvpair_toke" + "n/www.taobao.com_htm" + ".id_1973821037/QX8");
  }

  lemma Answer2Line116()
    ensures Answer(CandidateKeys2, QueryLine116) == "xp.db.hk/kvpair_toke" + "n/www.taobao.com_htm" + ".id_1973821037/QX8"
  {
  }

  /** main.cc line 116:
      http://js.xaut.edu.cn/xaut/WEB_INF/www.jsp?url=xp.db.hk/kvpair_token/www.taobao.com_htm.id_1973821037/QX8
      gives "xp.db.hk/kvpair_token/www.taobao.com_htm.id_1973821037/QX8". */
  lemma Extract2Line116(path: string)
    requires '?' !in path
    ensures Extract(CandidateKeys2, path + "?" + QueryText(QueryLine116)) == "xp.db.hk/kvpair_toke" + "n/www.taobao.com_htm" + ".id_1973821037/QX8"
  {
    QueryLine116WellFormed();
    ExtractOfSegments(CandidateKeys2, path, QueryLine116);
    Answer2Line116();
  }

  /** The query url=kvpair_token.cn/8kt8JX3#2.taobao.ccm_htm.id.2019858772/SV */
  const QueryLine117: seq<Segment> := [
    Pair("url", "kvpair_token.cn/8kt8" + "JX3#2.taobao.ccm_htm" + ".id.2019858772/SV")]

  /** "kvpair_token.cn/8kt8" holds no '&'. */
  lemma NoAmpKvpairTokenCn8kt8()
    ensures '&' !in "kvpair_token.cn/8kt8"
  {
  }

  /** "JX3#2.taobao.ccm_htm" holds no '&'. */
  lemma NoAmpJx32TaobaoCcmHtm()
    ensures '&' !in "JX3#2.taobao.ccm_htm"
  {
  }

  /** ".id.2019858772/SV" holds no '&'. */
  lemma NoAmpId2019858772Sv()
    ensures '&' !in ".id.2019858772/SV"
  {
  }

  lemma QueryLine117WellFormed()
    ensures forall g | g in QueryLine117 :: WellFormed(g)
  {
    NoAmpKvpairTokenCn8kt8();
    NoAmpJx32TaobaoCcmHtm();
    NoAmpId2019858772Sv();
    PairOk("url", "kvpair_token.cn/8kt8" + "JX3#2.taobao.ccm_htm" + ".id.2019858772/SV");
  }

  lemma Answer2Line117()
    ensures Answer(CandidateKeys2, QueryLine117) == "kvpair_token.cn/8kt8" + "JX3#2.taobao.ccm_htm" + ".id.2019858772/SV"
  {
  }

  /** main.cc line 117:
      http://bwc.buaa.edu.cn/jc.jsp?url=kvpair_token.cn/8kt8JX3#2.taobao.ccm_htm.id.2019858772/SV
      gives "kvpair_token.cn/8kt8JX3#2.taobao.ccm_htm.id.2019858772/SV". */
  lemma Extract2Line117(path: string)
    requires '?' !in path
    ensures Extract(CandidateKeys2, path + "?" + QueryText(QueryLine117)) == "kvpair_token.cn/8kt8" + "JX3#2.taobao.ccm_htm" + ".id.2019858772/SV"
  {
    QueryLine117WellFormed();
    ExtractOfSegments(CandidateKeys2, path, QueryLine117);
    Answer2Line117();
  }

  lemma Answer2Line122At0()
    ensures Answer(CandidateKeys2, QueryLine35At0) == "cdmaw.com"
  {
  }

  lemma Answer2Line122At4()
    ensures Answer(CandidateKeys2, QueryLine35At4) == ""
  {
  }

  lemma Answer2Line122()
    ensures Answer(CandidateKeys2, QueryLine35) == "cdmaw.com"
  {
    Answer2Line122At0();
    Answer2Line122At4();
    AnswerAppend(CandidateKeys2, QueryLine35At0, QueryLine35At4);
  }

  /** main.cc line 122:
      http://translate.baiducontent.com/transpage?cb=translateCallback&ie=utf8&source=url&query=cdmaw.com&from=en&to=zh&token=&monLang=zh
      gives "cdmaw.com". */
  lemma Extract2Line122(path: string)
    requires '?' !in path
    ensures Extract(CandidateKeys2, path + "?" + QueryText(QueryLine35)) == "cdmaw.com"
  {
    QueryLine35WellFormed();
    ExtractOfSegments(CandidateKeys2, path, QueryLine35);
    Answer2Line122();
  }

  lemma Answer2Line123()
    ensures Answer(CandidateKeys2, QueryLine36) == "http%3A%2F%2Fwww.so.com"
  {
  }

  /** main.cc line 123:
      http://fanyi.baidu.com/transpage?url=http%3A%2F%2Fwww.so.com&from=en&to=zh
      gives "http%3A%2F%2Fwww.so.com". */
  lemma Extract2Line123(path: string)
    requires '?' !in path
    ensures Extract(CandidateKeys2, path + "?" + QueryText(QueryLine36)) == "http%3A%2F%2Fwww.so.com"
  {
    QueryLine36WellFormed();
    ExtractOfSegments(CandidateKeys2, path, QueryLine36);
    Answer2Line123();
  }

  /** The query from=&to=zh-chs&query=http://hnujug.com/&xxx=kvpair_token */
  const QueryLine124: seq<Segment> := [
    Pair("from", ""),
    Pair("to", "zh-chs"),
    Pair("query", "http://hnujug.com/"),
    Pair("xxx", "kvpair_token")]

  lemma QueryLine124WellFormed()
    ensures forall g | g in QueryLine124 :: WellFormed(g)
  {
    PairOk("from", "");
    PairOk("to", "zh-chs");
    NoAmpHttpHnujugCom();
    PairOk("query", "http://hnujug.com/");
    NoAmpKvpairToken();
    PairOk("xxx", "kvpair_token");
  }

  lemma Answer2Line124()
    ensures Answer(CandidateKeys2, QueryLine124) == "http://hnujug.com/"
  {
  }

  /** main.cc line 124:
      http://www.microsofttranslator.com/bv.aspx?from=&to=zh-chs&query=http://hnujug.com/&xxx=kvpair_token
      gives "http://hnujug.com/". */
  lemma Extract2Line124(path: string)
    requires '?' !in path
    ensures Extract(CandidateKeys2, path + "?" + QueryText(QueryLine124)) == "http://hnujug.com/"
  {
    QueryLine124WellFormed();
    ExtractOfSegments(CandidateKeys2, path, QueryLine124);
    Answer2Line124();
  }
}
