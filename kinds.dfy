/** The answer categories of the two reporting scripts. */
module AnswerKinds {
  import opened Text

  /** 动物, 物品, 数字, 字母, 中文(词汇), 其他. */
  datatype Kind = Animal | Object | Digits | Letters | Chinese | Other

  /** `answer.isalpha() and answer.isupper()`. */
  predicate IsLetters(a: string) {
    IsAlpha(a) && IsUpper(a)
  }

  /** The size of every category of a report, which holds all six. */
  function Total<T>(types: map<Kind, seq<T>>): nat
    requires forall k: Kind :: k in types
  {
    |types[Animal]| + |types[Object]| + |types[Digits]| + |types[Letters]| + |types[Chinese]| + |types[Other]|
  }

  /** The six categories, each empty. */
  function NoTypes<T>(): (types: map<Kind, seq<T>>)
    ensures forall k: Kind :: k in types && types[k] == []
  {
    AllKindsComplete();
    map k: Kind | k in AllKinds :: []
  }

  const AllKinds: set<Kind> := {Animal, Object, Digits, Letters, Chinese, Other}

  lemma AllKindsComplete()
    ensures forall k: Kind :: k in AllKinds
  {
    forall k: Kind ensures k in AllKinds {
      match k
      case Animal =>
      case Object =>
      case Digits =>
      case Letters =>
      case Chinese =>
      case Other =>
    }
  }
}
