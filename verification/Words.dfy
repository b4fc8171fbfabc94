/** Command words as a client writes them: in either case, letter by letter. */
module Words {
  import opened Resp
  import opened Commands

  /** `c` is `letter`, or the same letter in lower case. */
  predicate SameLetter(c: char, letter: char) {
    c == letter || ('A' <= letter <= 'Z' && c as int == letter as int + 32)
  }

  /** `w` is `word`, each letter in either case. */
  predicate Spells(w: string, word: string) {
    |w| == |word| && forall i :: 0 <= i < |w| ==> SameLetter(w[i], word[i])
  }

  predicate HasNoLower(word: string) {
    forall i :: 0 <= i < |word| ==> !('a' <= word[i] <= 'z')
  }

  /** The command's first word is `word`, in any case. */
  predicate Calls(args: Command, word: string) {
    args != [] && Spells(args[0], word)
  }

  /** Folding a text gives a word without lower-case letters exactly when the text spells it. */
  lemma FoldingSpells(w: string, word: string)
    requires HasNoLower(word)
    ensures Upper(w) == word <==> Spells(w, word)
  {
    forall i | 0 <= i < |w| && |w| == |word| ensures UpperChar(w[i]) == word[i] <==> SameLetter(w[i], word[i]) {}
    if Spells(w, word) {
      assert Upper(w) == word;
    }
  }

  /** The word of a command. */
  function WordOf(name: Name): string {
    match name
    case NameSet => "SET"
    case NameGet => "GET"
    case NameGetSet => "GETSET"
    case NameAppend => "APPEND"
    case NameIncr => "INCR"
    case NameDecr => "DECR"
    case NameIncrBy => "INCRBY"
    case NameDecrBy => "DECRBY"
    case NameMGet => "MGET"
    case NameMSet => "MSET"
    case NameDel => "DEL"
    case NameExists => "EXISTS"
    case NameType => "TYPE"
    case NameExpire => "EXPIRE"
    case NamePExpire => "PEXPIRE"
    case NameTTL => "TTL"
    case NamePTTL => "PTTL"
    case NamePersist => "PERSIST"
    case NameFlushDB => "FLUSHDB"
    case NameHSet => "HSET"
    case NameHGet => "HGET"
    case NameHDel => "HDEL"
    case NameLPush => "LPUSH"
    case NameRPush => "RPUSH"
    case NameLPop => "LPOP"
    case NameRPop => "RPOP"
    case NameLIndex => "LINDEX"
    case NameLRange => "LRANGE"
    case NameOther => ""
  }

  lemma WordIsUpper(name: Name)
    ensures HasNoLower(WordOf(name))
  {}

  lemma StringWords()
    ensures Known("SET") == NameSet
    ensures Known("GET") == NameGet
    ensures Known("GETSET") == NameGetSet
    ensures Known("APPEND") == NameAppend
  {}

  lemma CounterWords()
    ensures Known("INCR") == NameIncr
    ensures Known("DECR") == NameDecr
    ensures Known("INCRBY") == NameIncrBy
    ensures Known("DECRBY") == NameDecrBy
  {}

  lemma SeveralWords()
    ensures Known("MGET") == NameMGet
    ensures Known("MSET") == NameMSet
    ensures Known("DEL") == NameDel
    ensures Known("EXISTS") == NameExists
  {}

  lemma AnyWords()
    ensures Known("TYPE") == NameType
    ensures Known("EXPIRE") == NameExpire
    ensures Known("PEXPIRE") == NamePExpire
  {}

  lemma TimeWords()
    ensures Known("TTL") == NameTTL
    ensures Known("PTTL") == NamePTTL
    ensures Known("PERSIST") == NamePersist
  {}

  lemma HashWords()
    ensures Known("HSET") == NameHSet
    ensures Known("HGET") == NameHGet
    ensures Known("HDEL") == NameHDel
  {}

  lemma PushWords()
    ensures Known("LPUSH") == NameLPush
    ensures Known("RPUSH") == NameRPush
    ensures Known("FLUSHDB") == NameFlushDB
  {}

  lemma PopWords()
    ensures Known("LPOP") == NameLPop
    ensures Known("RPOP") == NameRPop
  {}

  lemma RangeWords()
    ensures Known("LINDEX") == NameLIndex
    ensures Known("LRANGE") == NameLRange
  {}

  lemma KnownWord(name: Name)
    ensures Known(WordOf(name)) == name
  {
    match name
    case NameSet => StringWords();
    case NameGet => StringWords();
    case NameGetSet => StringWords();
    case NameAppend => StringWords();
    case NameIncr => CounterWords();
    case NameDecr => CounterWords();
    case NameIncrBy => CounterWords();
    case NameDecrBy => CounterWords();
    case NameMGet => SeveralWords();
    case NameMSet => SeveralWords();
    case NameDel => SeveralWords();
    case NameExists => SeveralWords();
    case NameType => AnyWords();
    case NameExpire => AnyWords();
    case NamePExpire => AnyWords();
    case NameTTL => TimeWords();
    case NamePTTL => TimeWords();
    case NamePersist => TimeWords();
    case NameFlushDB => PushWords();
    case NameHSet => HashWords();
    case NameHGet => HashWords();
    case NameHDel => HashWords();
    case NameLPush => PushWords();
    case NameRPush => PushWords();
    case NameLPop => PopWords();
    case NameRPop => PopWords();
    case NameLIndex => RangeWords();
    case NameLRange => RangeWords();
    case NameOther =>
  }

  lemma UpperStays(word: string)
    requires HasNoLower(word)
    ensures Upper(word) == word
  {}

  lemma WordNames(name: Name)
    ensures HasNoLower(WordOf(name)) && NameOf(WordOf(name)) == name
  {
    WordIsUpper(name);
    UpperStays(WordOf(name));
    KnownWord(name);
  }

  /** A command is read by its folded first word. */
  lemma CalledBy(args: Command, name: Name)
    requires !name.NameOther? && Calls(args, WordOf(name))
    ensures NameOf(args[0]) == name && Parse(args) == ParseNamed(name, args)
  {
    var word := WordOf(name);
    WordNames(name);
    FoldingSpells(args[0], word);
    FoldingSpells(word, word);
    assert Upper(args[0]) == Upper(word);
  }

  lemma OnlyStringWords(u: string)
    ensures Known(u) == NameSet ==> u == "SET"
    ensures Known(u) == NameGet ==> u == "GET"
    ensures Known(u) == NameGetSet ==> u == "GETSET"
    ensures Known(u) == NameAppend ==> u == "APPEND"
  {}

  lemma OnlyCounterWords(u: string)
    ensures Known(u) == NameIncr ==> u == "INCR"
    ensures Known(u) == NameDecr ==> u == "DECR"
    ensures Known(u) == NameIncrBy ==> u == "INCRBY"
    ensures Known(u) == NameDecrBy ==> u == "DECRBY"
  {}

  lemma OnlySeveralWords(u: string)
    ensures Known(u) == NameMGet ==> u == "MGET"
    ensures Known(u) == NameMSet ==> u == "MSET"
    ensures Known(u) == NameDel ==> u == "DEL"
    ensures Known(u) == NameExists ==> u == "EXISTS"
  {}

  lemma OnlyAnyWords(u: string)
    ensures Known(u) == NameType ==> u == "TYPE"
    ensures Known(u) == NameExpire ==> u == "EXPIRE"
    ensures Known(u) == NamePExpire ==> u == "PEXPIRE"
  {}

  lemma OnlyTimeWords(u: string)
    ensures Known(u) == NameTTL ==> u == "TTL"
    ensures Known(u) == NamePTTL ==> u == "PTTL"
    ensures Known(u) == NamePersist ==> u == "PERSIST"
  {}

  lemma OnlyHashWords(u: string)
    ensures Known(u) == NameHSet ==> u == "HSET"
    ensures Known(u) == NameHGet ==> u == "HGET"
    ensures Known(u) == NameHDel ==> u == "HDEL"
  {}

  lemma OnlyPushWords(u: string)
    ensures Known(u) == NameLPush ==> u == "LPUSH"
    ensures Known(u) == NameRPush ==> u == "RPUSH"
    ensures Known(u) == NameFlushDB ==> u == "FLUSHDB"
  {}

  lemma OnlyPopWords(u: string)
    ensures Known(u) == NameLPop ==> u == "LPOP"
    ensures Known(u) == NameRPop ==> u == "RPOP"
  {}

  lemma OnlyRangeWords(u: string)
    ensures Known(u) == NameLIndex ==> u == "LINDEX"
    ensures Known(u) == NameLRange ==> u == "LRANGE"
  {}

  lemma KnownIsWord(u: string)
    ensures Known(u).NameOther? || u == WordOf(Known(u))
  {
    match Known(u)
    case NameSet => OnlyStringWords(u);
    case NameGet => OnlyStringWords(u);
    case NameGetSet => OnlyStringWords(u);
    case NameAppend => OnlyStringWords(u);
    case NameIncr => OnlyCounterWords(u);
    case NameDecr => OnlyCounterWords(u);
    case NameIncrBy => OnlyCounterWords(u);
    case NameDecrBy => OnlyCounterWords(u);
    case NameMGet => OnlySeveralWords(u);
    case NameMSet => OnlySeveralWords(u);
    case NameDel => OnlySeveralWords(u);
    case NameExists => OnlySeveralWords(u);
    case NameType => OnlyAnyWords(u);
    case NameExpire => OnlyAnyWords(u);
    case NamePExpire => OnlyAnyWords(u);
    case NameTTL => OnlyTimeWords(u);
    case NamePTTL => OnlyTimeWords(u);
    case NamePersist => OnlyTimeWords(u);
    case NameHSet => OnlyHashWords(u);
    case NameHGet => OnlyHashWords(u);
    case NameHDel => OnlyHashWords(u);
    case NameLPush => OnlyPushWords(u);
    case NameRPush => OnlyPushWords(u);
    case NameFlushDB => OnlyPushWords(u);
    case NameLPop => OnlyPopWords(u);
    case NameRPop => OnlyPopWords(u);
    case NameLIndex => OnlyRangeWords(u);
    case NameLRange => OnlyRangeWords(u);
    case NameOther =>
  }

  /** A command that is read by a word is called by it. */
  lemma NamedCalls(args: Command)
    requires args != []
    ensures var name := NameOf(args[0]); name.NameOther? || Calls(args, WordOf(name))
  {
    var name := NameOf(args[0]);
    KnownIsWord(Upper(args[0]));
    WordIsUpper(name);
    FoldingSpells(args[0], WordOf(name));
  }

  /** A command is called by one word only. */
  lemma OneWord(args: Command, name: Name, other: Name)
    requires !name.NameOther? && !other.NameOther?
    requires Calls(args, WordOf(name)) && Calls(args, WordOf(other))
    ensures name == other
  {
    CalledBy(args, name);
    CalledBy(args, other);
  }
}
