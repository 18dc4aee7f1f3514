/** The fixed Korean-to-English synonym dictionary KR_EN_MAP
    (rag_chain.py:102-151), kept as an ordered list of entries because query
    expansion walks it in the dictionary's insertion order. */
module Synonyms {
  import opened Wrappers

  type Entry = (string, string)

  const KrEnMap: seq<Entry> := [
    ("태재대학교", "Taejae TAEJAE taejae.ac.kr"), ("태재", "Taejae TAEJAE taejae"),
    ("비전", "vision visions"), ("목표", "goal goals objective"),
    ("교육", "education educational"), ("철학", "philosophy"),
    ("인재", "talent leader"), ("핵심역량", "core competency"),
    ("학생", "student students"), ("캠퍼스", "campus"),
    ("글로벌", "global"), ("혁신", "innovation"),
    ("미래", "future"), ("학습", "learning study"),
    ("리더", "leader leadership"), ("연구", "research"),
    ("개발", "development"), ("기술", "technology"),
    ("과학", "science"), ("공학", "engineering"),
    ("경영", "management business"), ("경제", "economics economy"),
    ("사회", "society social"), ("문화", "culture cultural"),
    ("정책", "policy"), ("전략", "strategy strategic"),
    ("계획", "plan planning"), ("평가", "evaluation assessment"),
    ("분석", "analysis"), ("설계", "design"),
    ("구현", "implementation"), ("운영", "operation management"),
    ("관리", "management administration"), ("시스템", "system"),
    ("프로그램", "program"), ("프로젝트", "project"),
    ("데이터", "data"), ("정보", "information"),
    ("보안", "security"), ("네트워크", "network"),
    ("서버", "server"), ("클라우드", "cloud"),
    ("인공지능", "artificial intelligence AI"), ("머신러닝", "machine learning"),
    ("딥러닝", "deep learning"), ("알고리즘", "algorithm"),
    ("소프트웨어", "software"), ("하드웨어", "hardware"),
    ("입학", "admission enrollment"), ("졸업", "graduation"),
    ("장학금", "scholarship"), ("등록금", "tuition fee"),
    ("수업", "class course lecture"), ("시험", "exam examination"),
    ("성적", "grade score"), ("학점", "credit"),
    ("교수", "professor faculty"), ("직원", "staff employee"),
    ("규정", "regulation rule"), ("규칙", "rule"),
    ("지침", "guideline"), ("정관", "articles charter"),
    ("예산", "budget"), ("회계", "accounting finance"),
    ("계약", "contract agreement"), ("구매", "procurement purchase"),
    ("출장", "business trip travel"), ("여비", "travel expenses"),
    ("인사", "personnel HR"), ("복무", "service duty"),
    ("급여", "salary pay"), ("보수", "compensation remuneration"),
    ("채용", "recruitment hiring"), ("퇴직", "retirement resignation"),
    ("징계", "discipline disciplinary"), ("상벌", "reward punishment"),
    ("안전", "safety"), ("환경", "environment"),
    ("시설", "facility facilities"), ("건물", "building"),
    ("도서관", "library"), ("기숙사", "dormitory"),
    ("위원회", "committee commission"), ("회의", "meeting conference"),
    ("보고서", "report"), ("문서", "document"),
    ("승인", "approval"), ("허가", "permission permit"),
    ("감사", "audit inspection"), ("점검", "inspection check"),
    ("협력", "cooperation collaboration"), ("파트너", "partner partnership"),
    ("산학", "industry-academia"), ("산학협력", "industry-academia cooperation"),
    ("특허", "patent"), ("저작권", "copyright"),
    ("논문", "thesis paper"), ("학위", "degree"),
    ("커리큘럼", "curriculum"), ("교과", "curriculum course"),
    ("성과", "performance result"), ("목적", "purpose objective"),
    ("조직", "organization"), ("부서", "department division")
  ]

  /** `key in KR_EN_MAP`. */
  predicate HasKey(table: seq<Entry>, key: string) {
    exists i :: 0 <= i < |table| && table[i].0 == key
  }

  /** `KR_EN_MAP[key]`: the value of the first entry with that key. */
  function Lookup(table: seq<Entry>, key: string): (r: Option<string>)
    ensures r.None? <==> !HasKey(table, key)
    ensures r.Some? ==> exists i :: 0 <= i < |table| && table[i] == (key, r.value)
    decreases |table|
  {
    if table == [] then None
    else if table[0].0 == key then Some(table[0].1)
    else Lookup(table[1..], key)
  }
}
