// The phrase tables of caveman() (src/compression/caveman.js), and what they do
// to the words that must never be dropped.

module PhraseTables {
  import opened Text
  import opened Caveman
  import opened Phrases

  // --- telling the protected words from the others --------------------------

  // The words that must never be dropped, by first letter.
  predicate Protected(w: string)
    requires w != ""
  {
    if w[0] == 'a' then w == "after" || w == "all" || w == "and" || w == "any" || w == "arent"
    else if w[0] == 'b' then w == "because" || w == "before" || w == "both" || w == "but"
    else if w[0] == 'c' then w == "can" || w == "cannot" || w == "cant"
    else if w[0] == 'd' then w == "didnt" || w == "doesnt" || w == "dont"
    else if w[0] == 'e' then w == "each" || w == "either" || w == "else" || w == "every" || w == "except"
    else if w[0] == 'h' then w == "however"
    else if w[0] == 'i' then w == "if" || w == "instead" || w == "isnt"
    else if w[0] == 'm' then w == "may" || w == "might" || w == "must"
    else if w[0] == 'n' then w == "neither" || w == "never" || w == "no" || w == "none" || w == "nor" || w == "not"
    else if w[0] == 'o' then w == "only" || w == "or"
    else if w[0] == 's' then w == "shall" || w == "should" || w == "shouldnt"
    else if w[0] == 't' then w == "than"
    else if w[0] == 'u' then w == "unless" || w == "until"
    else if w[0] == 'v' then w == "vs"
    else if w[0] == 'w' then w == "wasnt" || w == "werent" || w == "when" || w == "while" || w == "will"
      || w == "without" || w == "wont" || w == "would" || w == "wouldnt"
    else false
  }

  type PlainWord = w: LowerWord | !Protected(w) witness "a"

  predicate Unprotected(p: Phrase) {
    && (forall i :: 0 <= i < |p.words| ==> !Protected(p.words[i]))
    && (forall i :: 0 <= i < |p.more| ==> !Protected(p.more[i]))
  }

  function Split(words: seq<PlainWord>, more: seq<PlainWord>): (p: Phrase)
    requires words != []
    ensures Proper(p) && Unprotected(p)
  {
    Phrase(words, more)
  }

  function P(words: seq<PlainWord>): (p: Phrase)
    requires words != []
    ensures Proper(p) && Unprotected(p)
  {
    Split(words, [])
  }

  // Every phrase of the pattern starts with one of these words.
  predicate Opens(r: Rule, openers: seq<string>) {
    forall i :: 0 <= i < |r.phrases| ==> Proper(r.phrases[i]) && r.phrases[i].words[0] in openers
  }

  predicate AllOpen(rs: seq<Rule>, openers: seq<string>) {
    forall k :: 0 <= k < |rs| ==> Opens(rs[k], openers)
  }

  // The words that must never be dropped and that the rewrites put in.
  const BROUGHT := ["if", "because", "can", "before", "after"]

  // The words that a rewritten phrase can start with.
  const OPENERS :=
    ["in", "due", "for", "with", "is", "are", "has", "at", "a", "the", "as", "prior", "subsequent", "make"]

  predicate BringsOnly(t: string) {
    t == "decide to" || (IsLowerWord(t) && (t in BROUGHT || !Protected(t)))
  }

  // A pattern without protected words, and with none in its place but those.
  type PlainRule = r: Rule |
      Opens(r, OPENERS) && BringsOnly(r.instead) && forall i :: 0 <= i < |r.phrases| ==> Unprotected(r.phrases[i])
    witness Rule([], "a")

  // --- REWRITES -------------------------------------------------------------

  const IN_ORDER_TO := P(["in", "order", "to"])
  const IN_THE_EVENT_THAT := P(["in", "the", "event", "that"])
  const IN_THE_CASE_THAT := P(["in", "the", "case", "that"])
  const IN_THE_CASE_WHERE := P(["in", "the", "case", "where"])
  const DUE_TO_THE_FACT_THAT := P(["due", "to", "the", "fact", "that"])
  const FOR_THE_PURPOSE_OF := P(["for", "the", "purpose", "of"])
  const FOR_THE_PURPOSES_OF := P(["for", "the", "purposes", "of"])
  const WITH_REGARD_TO := P(["with", "regard", "to"])
  const WITH_RESPECT_TO := P(["with", "respect", "to"])
  const IS_ABLE_TO := P(["is", "able", "to"])
  const ARE_ABLE_TO := P(["are", "able", "to"])
  const HAS_THE_ABILITY_TO := P(["has", "the", "ability", "to"])
  const AT_THIS_POINT_IN_TIME := P(["at", "this", "point", "in", "time"])
  const A_LARGE_NUMBER_OF := P(["a", "large", "number", "of"])
  const A_GREAT_NUMBER_OF := P(["a", "great", "number", "of"])
  const THE_MAJORITY_OF := P(["the", "majority", "of"])
  const IN_ADDITION_TO := P(["in", "addition", "to"])
  const AS_A_RESULT_OF := P(["as", "a", "result", "of"])
  const AS_A_CONSEQUENCE_OF := P(["as", "a", "consequence", "of"])
  const PRIOR_TO := P(["prior", "to"])
  const SUBSEQUENT_TO := P(["subsequent", "to"])
  const IN_SPITE_OF_THE_FACT_THAT := P(["in", "spite", "of", "the", "fact", "that"])
  const MAKE_A_DECISION_TO := P(["make", "a", "decision", "to"])
  const MAKE_A_ATTEMPT_TO := P(["make", "a", "attempt", "to"])
  const MAKE_AN_DECISION_TO := P(["make", "an", "decision", "to"])
  const MAKE_AN_ATTEMPT_TO := P(["make", "an", "attempt", "to"])

  const ORDER_RULE: PlainRule := Rule([IN_ORDER_TO], "to")
  const EVENT_RULE: PlainRule := Rule([IN_THE_EVENT_THAT], "if")
  const CASE_RULE: PlainRule := Rule([IN_THE_CASE_THAT, IN_THE_CASE_WHERE], "if")
  const FACT_RULE: PlainRule := Rule([DUE_TO_THE_FACT_THAT], "because")
  const PURPOSE_RULE: PlainRule := Rule([FOR_THE_PURPOSE_OF, FOR_THE_PURPOSES_OF], "for")
  const REGARD_RULE: PlainRule := Rule([WITH_REGARD_TO, WITH_RESPECT_TO], "re")
  const IS_ABLE_RULE: PlainRule := Rule([IS_ABLE_TO], "can")
  const ARE_ABLE_RULE: PlainRule := Rule([ARE_ABLE_TO], "can")
  const ABILITY_RULE: PlainRule := Rule([HAS_THE_ABILITY_TO], "can")
  const POINT_RULE: PlainRule := Rule([AT_THIS_POINT_IN_TIME], "now")
  const NUMBER_RULE: PlainRule := Rule([A_LARGE_NUMBER_OF, A_GREAT_NUMBER_OF], "many")
  const MAJORITY_RULE: PlainRule := Rule([THE_MAJORITY_OF], "most")
  const ADDITION_RULE: PlainRule := Rule([IN_ADDITION_TO], "plus")
  const RESULT_RULE: PlainRule := Rule([AS_A_RESULT_OF, AS_A_CONSEQUENCE_OF], "from")
  const PRIOR_RULE: PlainRule := Rule([PRIOR_TO], "before")
  const SUBSEQUENT_RULE: PlainRule := Rule([SUBSEQUENT_TO], "after")
  const SPITE_RULE: PlainRule := Rule([IN_SPITE_OF_THE_FACT_THAT], "although")
  const MAKE_RULE: PlainRule :=
    Rule([MAKE_A_DECISION_TO, MAKE_A_ATTEMPT_TO, MAKE_AN_DECISION_TO, MAKE_AN_ATTEMPT_TO], "decide to")

  const BEHIND_ORDER: seq<PlainRule> :=
    [EVENT_RULE, CASE_RULE, FACT_RULE, PURPOSE_RULE, REGARD_RULE, IS_ABLE_RULE,
     ARE_ABLE_RULE, ABILITY_RULE, POINT_RULE, NUMBER_RULE, MAJORITY_RULE, ADDITION_RULE,
     RESULT_RULE, PRIOR_RULE, SUBSEQUENT_RULE, SPITE_RULE, MAKE_RULE]

  const REWRITES: seq<PlainRule> := [ORDER_RULE] + BEHIND_ORDER

  // --- FILLER_PHRASES -------------------------------------------------------

  // Phrases by the word they start with, and words they lack.
  type ItPhrase = q: Phrase |
      Proper(q) && q.words[0] == "it" && "please" !in WordsOf(q)
    witness Phrase(["it"], [])
  type AsPhrase = q: Phrase |
      Proper(q) && q.words[0] == "as" && "please" !in WordsOf(q) && "it" !in WordsOf(q)
    witness Phrase(["as"], [])
  type IPhrase = q: Phrase |
      Proper(q) && q.words[0] == "i" && "please" !in WordsOf(q) && "it" !in WordsOf(q)
      && "as" !in WordsOf(q) && "in" !in WordsOf(q)
    witness Phrase(["i"], [])
  type ForPhrase = q: Phrase |
      Proper(q) && q.words[0] == "for" && "please" !in WordsOf(q) && "as" !in WordsOf(q) && "in" !in WordsOf(q)
      && "i" !in WordsOf(q) && "feel" !in WordsOf(q) && "just" !in WordsOf(q)
      && "keep" !in WordsOf(q) && "that" !in WordsOf(q) && "at" !in WordsOf(q)
    witness Phrase(["for"], [])

  // And without protected words.
  type WorthPhrase = q: Phrase |
      Proper(q) && q.words[0] == "it" && Unprotected(q) && Lack([q], "as") && Lack([q], "i") && Lack([q], "for")
    witness Phrase(["it"], [])

  // A word that no rewritten phrase starts with.
  type OtherWord = w: LowerWord | w !in OPENERS witness "b"

  const NOTED_WORDS: seq<OtherWord> := ["it", "should", "be", "noted", "that"]

  // The phrases that have a protected word.
  const NOTED: ItPhrase := Phrase(NOTED_WORDS, [])
  const SEEN: AsPhrase := Phrase(["as", "you", "can", "see"], [])
  const MENTIONED_BEFORE: AsPhrase := Phrase(["as", "mentioned", "before"], [])
  const I_WOULD: IPhrase := Phrase(["i", "would", "like", "to"], [])
  const I_WILL: IPhrase := Phrase(["i", "will", "like", "to"], [])
  const FOR_ALL_IT_IS: ForPhrase := Phrase(["for", "all", "it"], ["s", "worth"])
  const FOR_ALL_ITS: ForPhrase := Phrase(["for", "all", "its", "worth"], [])

  const LOSERS: seq<Phrase> := [NOTED, SEEN, MENTIONED_BEFORE, I_WOULD, I_WILL, FOR_ALL_IT_IS, FOR_ALL_ITS]

  const FOR_WHAT_IT_IS := Split(["for", "what", "it"], ["s", "worth"])
  const PLEASE_NOTE_THAT := P(["please", "note", "that"])
  const IT_IS_IMPORTANT_TO_NOTE_THAT: WorthPhrase := P(["it", "is", "important", "to", "note", "that"])
  const IT_IS_IMPORTANT_NOTING_THAT: WorthPhrase := P(["it", "is", "important", "noting", "that"])
  const IT_IS_WORTH_TO_NOTE_THAT: WorthPhrase := P(["it", "is", "worth", "to", "note", "that"])
  const IT_IS_WORTH_NOTING_THAT: WorthPhrase := P(["it", "is", "worth", "noting", "that"])
  const AS_MENTIONED_ABOVE := P(["as", "mentioned", "above"])
  const AS_MENTIONED_EARLIER := P(["as", "mentioned", "earlier"])
  const IN_MY_OPINION := P(["in", "my", "opinion"])
  const IN_OUR_OPINION := P(["in", "our", "opinion"])
  const FEEL_FREE_TO := P(["feel", "free", "to"])
  const JUST_TO_BE_CLEAR := P(["just", "to", "be", "clear"])
  const KEEP_IN_MIND_THAT := P(["keep", "in", "mind", "that"])
  const THAT_BEING_SAID := P(["that", "being", "said"])
  const THAT_SAID_SAID := P(["that", "said", "said"])
  const AT_THE_END_OF_THE_DAY := P(["at", "the", "end", "of", "the", "day"])
  const FOR_WHAT_ITS_WORTH := P(["for", "what", "its", "worth"])
  const NEEDLESS_TO_SAY := P(["needless", "to", "say"])
  const BASICALLY := P(["basically"])
  const ESSENTIALLY := P(["essentially"])
  const ACTUALLY := P(["actually"])
  const CERTAINLY := P(["certainly"])
  const OF_COURSE := P(["of", "course"])
  const KINDLY := P(["kindly"])
  const PLEASE := P(["please"])

  // A pattern that erases, and has protected words only in those phrases.
  type FillerRule = r: Rule |
      ProperRule(r) && r.instead == ""
      && forall i :: 0 <= i < |r.phrases| ==> Unprotected(r.phrases[i]) || r.phrases[i] in LOSERS
    witness Rule([], "")

  // How the patterns open, and which words they lack.
  type NoteRule = r: FillerRule |
      Opens(r, ["please", "it"]) && Lack(r.phrases, "as") && Lack(r.phrases, "i") && Lack(r.phrases, "for")
    witness Rule([], "")
  type ViewRule = r: FillerRule | Opens(r, ["as", "in"]) && Lack(r.phrases, "i") && Lack(r.phrases, "for")
    witness Rule([], "")
  type AsideRule = r: FillerRule |
      Opens(r, ["i", "feel", "just", "keep", "that", "at"]) && Lack(r.phrases, "for")
    witness Rule([], "")

  function WorthRule(ps: seq<WorthPhrase>): NoteRule {
    assert forall i :: 0 <= i < |ps| ==> Lack([ps[i]], "as") && [ps[i]][0] == ps[i];
    Rule(ps, "")
  }

  const NOTE_RULE: NoteRule := Rule([PLEASE_NOTE_THAT], "")
  const WORTH: seq<WorthPhrase> :=
    [IT_IS_IMPORTANT_TO_NOTE_THAT, IT_IS_IMPORTANT_NOTING_THAT, IT_IS_WORTH_TO_NOTE_THAT, IT_IS_WORTH_NOTING_THAT]
  const WORTH_RULE := WorthRule(WORTH)
  const NOTED_RULE: NoteRule := Rule([NOTED], "")
  const AS_RULE: ViewRule := Rule([SEEN, AS_MENTIONED_ABOVE, AS_MENTIONED_EARLIER, MENTIONED_BEFORE], "")
  const OPINION_RULE: ViewRule := Rule([IN_MY_OPINION, IN_OUR_OPINION], "")
  const LIKE_RULE: AsideRule := Rule([I_WOULD, I_WILL], "")
  const FREE_RULE: AsideRule := Rule([FEEL_FREE_TO], "")
  const CLEAR_RULE: AsideRule := Rule([JUST_TO_BE_CLEAR], "")
  const MIND_RULE: AsideRule := Rule([KEEP_IN_MIND_THAT], "")
  const SAID_RULE: AsideRule := Rule([THAT_BEING_SAID, THAT_SAID_SAID], "")
  const DAY_RULE: AsideRule := Rule([AT_THE_END_OF_THE_DAY], "")
  const ITS_RULE: FillerRule := Rule([FOR_WHAT_IT_IS, FOR_WHAT_ITS_WORTH, FOR_ALL_IT_IS, FOR_ALL_ITS], "")

  const LAST_FILLERS: seq<FillerRule> :=
    [Rule([NEEDLESS_TO_SAY], ""),
     Rule([BASICALLY], ""),
     Rule([ESSENTIALLY], ""),
     Rule([ACTUALLY], ""),
     Rule([CERTAINLY], ""),
     Rule([OF_COURSE], ""),
     Rule([KINDLY], ""),
     Rule([PLEASE], "")]

  const NOTES: seq<NoteRule> := [NOTE_RULE, WORTH_RULE, NOTED_RULE]
  const VIEWS: seq<ViewRule> := [AS_RULE, OPINION_RULE]
  const ASIDES: seq<AsideRule> := [FREE_RULE, CLEAR_RULE, MIND_RULE, SAID_RULE, DAY_RULE]

  const BEHIND_LIKE: seq<FillerRule> := ASIDES + ([ITS_RULE] + LAST_FILLERS)
  const FILLER_PHRASES: seq<FillerRule> := NOTES + (VIEWS + ([LIKE_RULE] + BEHIND_LIKE))

  // --- the words of NEVER_DROP are protected --------------------------------

  predicate AllProtected(ws: seq<string>) {
    forall i :: 0 <= i < |ws| ==> ws[i] != "" && Protected(ws[i])
  }

  lemma {:induction false} HasProtected(ws: seq<string>, w: string)
    requires AllProtected(ws) && Has(ws, w)
    ensures w != "" && Protected(w)
  {
    if ws[0] != w {
      HasProtected(ws[1..], w);
    }
  }

  lemma FirstGroupsProtected()
    ensures AllProtected(NEGATIONS) && AllProtected(MORE_NEGATIONS) && AllProtected(EXCEPTIONS)
  {
  }

  lemma LastGroupsProtected()
    ensures AllProtected(CONDITIONS) && AllProtected(MODALS) && AllProtected(QUANTIFIERS) && AllProtected(CONNECTIVES)
  {
  }

  lemma NeverDropIsProtected(w: string)
    requires Has(NEVER_DROP, w)
    ensures w != "" && Protected(w)
  {
    FirstGroupsProtected();
    LastGroupsProtected();
    HasProtected(NEVER_DROP, w);
  }

  lemma MarkedNotIn(w: string, p: Phrase)
    requires w != "" && Protected(w) && Unprotected(p)
    ensures w !in p.words && w !in p.more
  {
  }

  // --- REWRITES never takes a protected word --------------------------------

  lemma PlainTable(rs: seq<PlainRule>, w: string)
    requires w != "" && Protected(w)
    ensures ProperRules(rs) && AllLack(rs, w)
  {
    forall k | 0 <= k < |rs| ensures Lack(rs[k].phrases, w) {
      forall i | 0 <= i < |rs[k].phrases| ensures w !in rs[k].phrases[i].words && w !in rs[k].phrases[i].more {
        MarkedNotIn(w, rs[k].phrases[i]);
      }
    }
  }

  lemma RewritesProper()
    ensures ProperRules(REWRITES)
  {
    PlainTable(REWRITES, "not");
  }

  // Every word that must never be dropped is there at least as often after the
  // rewrites, on every text.
  lemma RewritesKeepProtected(s: string, w: string)
    requires Has(NEVER_DROP, w)
    ensures ProperRules(REWRITES) && Times(w, Tokens(Passes(REWRITES, s))) >= Times(w, Tokens(s))
  {
    NeverDropIsProtected(w);
    PlainTable(REWRITES, w);
    TableSpares(REWRITES, s, w);
  }

  // --- FILLER_PHRASES takes them with seven phrases -------------------------

  lemma FillerTable(rs: seq<FillerRule>)
    ensures ProperRules(rs) && Erases(rs)
  {
  }

  lemma OnlyLosersAreProtected(rs: seq<FillerRule>, w: string)
    requires w != "" && Protected(w)
    ensures forall k, i :: 0 <= k < |rs| && 0 <= i < |rs[k].phrases| && w in WordsOf(rs[k].phrases[i]) ==>
              rs[k].phrases[i] in LOSERS
  {
    forall k, i | 0 <= k < |rs| && 0 <= i < |rs[k].phrases| && w in WordsOf(rs[k].phrases[i])
      ensures rs[k].phrases[i] in LOSERS
    {
      if Unprotected(rs[k].phrases[i]) {
        MarkedNotIn(w, rs[k].phrases[i]);
      }
    }
  }

  lemma FourClear(a: Phrase, b: Phrase, c: Phrase, d: Phrase, q: Phrase)
    requires (a != q ==> !Clash(a, q)) && (b != q ==> !Clash(b, q))
    requires (c != q ==> !Clash(c, q)) && (d != q ==> !Clash(d, q))
    ensures ClearBut(Rule([a, b, c, d], ""), q)
    ensures q !in [a, b, c, d] ==> Clear(Rule([a, b, c, d], ""), q)
  {
  }

  // A pattern cannot clash with a phrase when neither starts with a word of the other.
  lemma OpensClear(r: Rule, openers: seq<string>, q: Phrase)
    requires Proper(q) && Opens(r, openers) && Lack(r.phrases, q.words[0])
    requires forall o :: o in openers ==> o !in WordsOf(q)
    ensures Clear(r, q)
  {
    forall i | 0 <= i < |r.phrases| ensures !Clash(r.phrases[i], q) {
      StrangersDoNotClash(r.phrases[i], q);
    }
  }

  // So a phrase that is reached is reached past all patterns of that kind.
  lemma {:induction false} ReachedPast(rs: seq<Rule>, openers: seq<string>, more: seq<Rule>, q: Phrase)
    requires Proper(q) && AllOpen(rs, openers) && AllLack(rs, q.words[0]) && Reached(more, q)
    requires forall o :: o in openers ==> o !in WordsOf(q)
    ensures Reached(rs + more, q)
  {
    if rs == [] {
      NothingInFront(more);
    } else {
      OpensClear(rs[0], openers, q);
      ReachedPast(rs[1..], openers, more, q);
      HeadTail(rs, more);
    }
  }

  // p and q part at word k, and neither starts again further on in the other.
  lemma PartAt(p: Phrase, q: Phrase, k: nat)
    requires Proper(p) && Proper(q) && k < |WordsOf(p)| && k < |WordsOf(q)| && WordsOf(p)[k] != WordsOf(q)[k]
    requires q.words[0] !in WordsOf(p)[1..] && p.words[0] !in WordsOf(q)[1..]
    ensures !Clash(p, q) && !Clash(q, p)
  {
    PartMisses(WordsOf(p), WordsOf(q), k);
    PartMisses(WordsOf(q), WordsOf(p), k);
  }

  lemma PartMisses(p: seq<string>, q: seq<string>, k: nat)
    requires k < |p| && k < |q| && p[k] != q[k] && q[0] !in p[1..]
    ensures !Meets(p, q)
  {
    forall u | 0 <= u < |p| ensures !Agree(p[u..], q) {
      if u == 0 {
        assert p[0..][k] == p[k];
      } else {
        assert p[1..][u - 1] == p[u] && p[u..][0] == p[u];
      }
    }
  }

  // q starts with no word of p, and parts from p wherever p could start in it.
  lemma HalfParted(p: Phrase, q: Phrase)
    requires Proper(q) && q.words[0] !in WordsOf(p)
    requires forall u :: 0 <= u < |WordsOf(q)| ==> Parts(WordsOf(q), u, WordsOf(p))
    ensures !Clash(p, q)
  {
    StrangersMiss(WordsOf(p), WordsOf(q));
    PartingMisses(WordsOf(q), WordsOf(p));
  }

  lemma PastNotes(notes: seq<NoteRule>, more: seq<Rule>, q: Phrase)
    requires Proper(q) && (q.words[0] == "as" || q.words[0] == "i" || q.words[0] == "for") && Reached(more, q)
    requires "please" !in WordsOf(q) && "it" !in WordsOf(q)
    ensures Reached(notes + more, q)
  {
    ReachedPast(notes, ["please", "it"], more, q);
  }

  lemma PastViews(views: seq<ViewRule>, more: seq<Rule>, q: Phrase)
    requires Proper(q) && (q.words[0] == "i" || q.words[0] == "for") && Reached(more, q)
    requires "as" !in WordsOf(q) && "in" !in WordsOf(q)
    ensures Reached(views + more, q)
  {
    ReachedPast(views, ["as", "in"], more, q);
  }

  lemma PastAsides(asides: seq<AsideRule>, more: seq<Rule>, q: ForPhrase)
    requires Reached(more, q)
    ensures Reached(asides + more, q)
  {
    ReachedPast(asides, ["i", "feel", "just", "keep", "that", "at"], more, q);
  }

  // The phrases that start with "as", with "i", and with "for".
  lemma AsIsReached(notes: seq<NoteRule>, a: Rule, b: Rule, more: seq<Rule>, q: AsPhrase)
    requires q in a.phrases && ClearBut(a, q)
    ensures Reached(notes + ([a, b] + more), q)
  {
    ReachedHere(a, [b] + more, q);
    assert [a, b] + more == [a] + ([b] + more);
    PastNotes(notes, [a, b] + more, q);
  }

  lemma IIsReached(notes: seq<NoteRule>, views: seq<ViewRule>, like: Rule, more: seq<Rule>, q: IPhrase)
    requires q in like.phrases && ClearBut(like, q)
    ensures Reached(notes + (views + ([like] + more)), q)
  {
    ReachedHere(like, more, q);
    PastViews(views, [like] + more, q);
    PastNotes(notes, views + ([like] + more), q);
  }

  lemma ForIsReached(
    views: seq<ViewRule>, like: AsideRule, asides: seq<AsideRule>, its: Rule, last: seq<Rule>, q: ForPhrase)
    requires q in its.phrases && ClearBut(its, q)
    ensures Reached(views + ([like] + (asides + ([its] + last))), q)
  {
    ReachedHere(its, last, q);
    PastAsides(asides, [its] + last, q);
    PastAsides([like], asides + ([its] + last), q);
    PastViews(views, [like] + (asides + ([its] + last)), q);
  }

  // Nor can the other alternatives of its own pattern.
  lemma OwnPatternsClear()
    ensures ClearBut(NOTED_RULE, NOTED)
    ensures ClearBut(LIKE_RULE, I_WOULD) && ClearBut(LIKE_RULE, I_WILL)
  {
    PartAt(I_WOULD, I_WILL, 1);
  }

  lemma AsClearOfSeen()
    ensures ClearBut(AS_RULE, SEEN)
  {
    PartAt(AS_MENTIONED_ABOVE, SEEN, 1);
    PartAt(AS_MENTIONED_EARLIER, SEEN, 1);
    PartAt(MENTIONED_BEFORE, SEEN, 1);
    FourClear(SEEN, AS_MENTIONED_ABOVE, AS_MENTIONED_EARLIER, MENTIONED_BEFORE, SEEN);
  }

  lemma AsClearOfBefore()
    ensures ClearBut(AS_RULE, MENTIONED_BEFORE)
  {
    PartAt(SEEN, MENTIONED_BEFORE, 1);
    PartAt(AS_MENTIONED_ABOVE, MENTIONED_BEFORE, 2);
    PartAt(AS_MENTIONED_EARLIER, MENTIONED_BEFORE, 2);
    FourClear(SEEN, AS_MENTIONED_ABOVE, AS_MENTIONED_EARLIER, MENTIONED_BEFORE, MENTIONED_BEFORE);
  }

  lemma ItsClearOfItIs()
    ensures ClearBut(ITS_RULE, FOR_ALL_IT_IS)
  {
    PartAt(FOR_WHAT_IT_IS, FOR_ALL_IT_IS, 1);
    PartAt(FOR_WHAT_ITS_WORTH, FOR_ALL_IT_IS, 1);
    PartAt(FOR_ALL_ITS, FOR_ALL_IT_IS, 2);
    FourClear(FOR_WHAT_IT_IS, FOR_WHAT_ITS_WORTH, FOR_ALL_IT_IS, FOR_ALL_ITS, FOR_ALL_IT_IS);
  }

  lemma ItsClearOfIts()
    ensures ClearBut(ITS_RULE, FOR_ALL_ITS)
  {
    PartAt(FOR_WHAT_IT_IS, FOR_ALL_ITS, 1);
    PartAt(FOR_WHAT_ITS_WORTH, FOR_ALL_ITS, 1);
    PartAt(FOR_ALL_IT_IS, FOR_ALL_ITS, 2);
    FourClear(FOR_WHAT_IT_IS, FOR_WHAT_ITS_WORTH, FOR_ALL_IT_IS, FOR_ALL_ITS, FOR_ALL_ITS);
  }

  lemma ReachedFourth(a: Rule, b: Rule, c: Rule, more: seq<Rule>, q: Phrase)
    requires Clear(a, q) && Clear(b, q) && Clear(c, q) && Reached(more, q)
    ensures Reached([a, b, c] + more, q)
  {
    ReachedBehind(c, more, q);
    ReachedBehind(b, [c] + more, q);
    ReachedBehind(a, [b] + ([c] + more), q);
    assert [a, b, c] + more == [a] + ([b] + ([c] + more));
  }

  lemma ReachedThird(a: Rule, b: Rule, c: Rule, more: seq<Rule>, q: Phrase)
    requires Clear(a, q) && Clear(b, q) && q in c.phrases && ClearBut(c, q)
    ensures Reached([a, b, c] + more, q)
  {
    ReachedHere(c, more, q);
    ReachedBehind(b, [c] + more, q);
    ReachedBehind(a, [b] + ([c] + more), q);
    assert [a, b, c] + more == [a] + ([b] + ([c] + more));
  }

  lemma NoteClear(q: Phrase)
    requires Proper(q) && q.words[0] !in PLEASE_NOTE_THAT.words && "please" !in WordsOf(q)
    ensures Clear(NOTE_RULE, q)
  {
    StrangersDoNotClash(PLEASE_NOTE_THAT, q);
  }

  lemma NoteClearOfNoted()
    ensures Clear(NOTE_RULE, NOTED)
  {
    NoteClear(NOTED);
  }

  lemma ImportantDoesNotClash()
    ensures !Clash(IT_IS_IMPORTANT_TO_NOTE_THAT, NOTED) && !Clash(IT_IS_IMPORTANT_NOTING_THAT, NOTED)
  {
    PartAt(IT_IS_IMPORTANT_TO_NOTE_THAT, NOTED, 1);
    PartAt(IT_IS_IMPORTANT_NOTING_THAT, NOTED, 1);
  }

  lemma WorthDoesNotClash()
    ensures !Clash(IT_IS_WORTH_TO_NOTE_THAT, NOTED) && !Clash(IT_IS_WORTH_NOTING_THAT, NOTED)
  {
    PartAt(IT_IS_WORTH_TO_NOTE_THAT, NOTED, 1);
    PartAt(IT_IS_WORTH_NOTING_THAT, NOTED, 1);
  }

  lemma WorthClearOfNoted()
    ensures Clear(WORTH_RULE, NOTED)
  {
    ImportantDoesNotClash();
    WorthDoesNotClash();
    FourClear(
      IT_IS_IMPORTANT_TO_NOTE_THAT, IT_IS_IMPORTANT_NOTING_THAT,
      IT_IS_WORTH_TO_NOTE_THAT, IT_IS_WORTH_NOTING_THAT, NOTED);
  }

  lemma NotedReached()
    ensures Reached(FILLER_PHRASES, NOTED)
  {
    OwnPatternsClear();
    NoteClearOfNoted();
    WorthClearOfNoted();
    ReachedThird(NOTE_RULE, WORTH_RULE, NOTED_RULE, VIEWS + ([LIKE_RULE] + BEHIND_LIKE), NOTED);
  }

  lemma AsReached()
    ensures Reached(FILLER_PHRASES, SEEN) && Reached(FILLER_PHRASES, MENTIONED_BEFORE)
  {
    AsClearOfSeen();
    AsClearOfBefore();
    AsIsReached(NOTES, AS_RULE, OPINION_RULE, [LIKE_RULE] + BEHIND_LIKE, SEEN);
    AsIsReached(NOTES, AS_RULE, OPINION_RULE, [LIKE_RULE] + BEHIND_LIKE, MENTIONED_BEFORE);
  }

  lemma LikeReached()
    ensures Reached(FILLER_PHRASES, I_WOULD) && Reached(FILLER_PHRASES, I_WILL)
  {
    OwnPatternsClear();
    IIsReached(NOTES, VIEWS, LIKE_RULE, BEHIND_LIKE, I_WOULD);
    IIsReached(NOTES, VIEWS, LIKE_RULE, BEHIND_LIKE, I_WILL);
  }

  lemma ForAllItsReached()
    ensures Reached(FILLER_PHRASES, FOR_ALL_ITS)
  {
    ItsClearOfIts();
    ForIsReached(VIEWS, LIKE_RULE, ASIDES, ITS_RULE, LAST_FILLERS, FOR_ALL_ITS);
    PastNotes(NOTES, VIEWS + ([LIKE_RULE] + BEHIND_LIKE), FOR_ALL_ITS);
  }

  lemma ForAllItIsReached()
    ensures Reached(FILLER_PHRASES, FOR_ALL_IT_IS)
  {
    ItsClearOfItIs();
    ForIsReached(VIEWS, LIKE_RULE, ASIDES, ITS_RULE, LAST_FILLERS, FOR_ALL_IT_IS);
    NoteClear(FOR_ALL_IT_IS);
    WorthClearOfItIs();
    NotedClearOfItIs();
    ReachedFourth(NOTE_RULE, WORTH_RULE, NOTED_RULE, VIEWS + ([LIKE_RULE] + BEHIND_LIKE), FOR_ALL_IT_IS);
  }

  lemma WorthClearOfItIs()
    ensures Clear(WORTH_RULE, FOR_ALL_IT_IS)
  {
    HalfParted(IT_IS_IMPORTANT_TO_NOTE_THAT, FOR_ALL_IT_IS);
    HalfParted(IT_IS_IMPORTANT_NOTING_THAT, FOR_ALL_IT_IS);
    HalfParted(IT_IS_WORTH_TO_NOTE_THAT, FOR_ALL_IT_IS);
    HalfParted(IT_IS_WORTH_NOTING_THAT, FOR_ALL_IT_IS);
    FourClear(
      IT_IS_IMPORTANT_TO_NOTE_THAT, IT_IS_IMPORTANT_NOTING_THAT,
      IT_IS_WORTH_TO_NOTE_THAT, IT_IS_WORTH_NOTING_THAT, FOR_ALL_IT_IS);
  }

  lemma NotedClearOfItIs()
    ensures Clear(NOTED_RULE, FOR_ALL_IT_IS)
  {
    HalfParted(NOTED, FOR_ALL_IT_IS);
  }

  lemma SevenReached(rs: seq<Rule>, a: Phrase, b: Phrase, c: Phrase, d: Phrase, e: Phrase, f: Phrase, g: Phrase)
    requires Proper(a) && Proper(b) && Proper(c) && Proper(d) && Proper(e) && Proper(f) && Proper(g)
    requires Reached(rs, a) && Reached(rs, b) && Reached(rs, c) && Reached(rs, d)
    requires Reached(rs, e) && Reached(rs, f) && Reached(rs, g)
    ensures forall q :: q in [a, b, c, d, e, f, g] ==> Proper(q) && Reached(rs, q)
  {
  }

  lemma LosersReached()
    ensures forall q :: q in LOSERS ==> Proper(q) && Reached(FILLER_PHRASES, q)
  {
    NotedReached();
    AsReached();
    LikeReached();
    ForAllItIsReached();
    ForAllItsReached();
    SevenReached(FILLER_PHRASES, NOTED, SEEN, MENTIONED_BEFORE, I_WOULD, I_WILL, FOR_ALL_IT_IS, FOR_ALL_ITS);
  }

  // A word that must never be dropped is there as often after the filler phrases
  // are erased as in the text before, if and only if none of the seven phrases
  // with that word stands in the text.
  lemma FillersKeepIff(s: string, w: string)
    requires Has(NEVER_DROP, w)
    ensures ProperRules(FILLER_PHRASES)
    ensures Times(w, Tokens(Passes(FILLER_PHRASES, s))) == Times(w, Tokens(s))
       <==> forall q :: q in LOSERS && w in WordsOf(q) ==> !Stands(q, s)
    ensures Times(w, Tokens(Passes(FILLER_PHRASES, s))) <= Times(w, Tokens(s))
  {
    NeverDropIsProtected(w);
    FillerTable(FILLER_PHRASES);
    OnlyLosersAreProtected(FILLER_PHRASES, w);
    LosersReached();
    TableKeepsIff(FILLER_PHRASES, LOSERS, s, w);
  }

  // --- both tables, on the line caveman() is given ----------------------------

  lemma InsteadTokens(t: string)
    requires BringsOnly(t)
    ensures forall w :: w in Tokens(t) ==> w in BROUGHT || (w != "" && !Protected(w))
  {
    if t == "decide to" {
      TokensOfSpaced(["decide", "to"]);
      assert Spaced(["decide", "to"]) == t;
    } else {
      TokensOfWord(t);
    }
  }

  lemma {:induction false} GainedZero(w: string, ps: seq<Phrase>, t: string)
    requires w !in Tokens(t)
    ensures Gained(w, ps, t) == 0
  {
    if ps != [] {
      GainedZero(w, ps[1..], t);
    }
  }

  // The rewrites put in no protected word but the five.
  lemma {:induction false} BroughtZero(rs: seq<PlainRule>, s: string, w: string)
    requires w != "" && Protected(w) && w !in BROUGHT
    ensures ProperRules(rs) && Brought(w, rs, s) == 0
  {
    if rs != [] {
      InsteadTokens(rs[0].instead);
      GainedZero(w, Replaced(rs[0], s), rs[0].instead);
      BroughtZero(rs[1..], Replace(rs[0], s), w);
    }
  }

  // And they take none.
  lemma RewritesBalance(s: string, w: string)
    requires Has(NEVER_DROP, w)
    ensures ProperRules(REWRITES)
    ensures Times(w, Tokens(Passes(REWRITES, s))) == Times(w, Tokens(s)) + Brought(w, REWRITES, s)
    ensures w !in BROUGHT ==> Brought(w, REWRITES, s) == 0
  {
    NeverDropIsProtected(w);
    PlainTable(REWRITES, w);
    PassesConserve(REWRITES, s, w);
    RemovedAreAlternatives(REWRITES, s, w);
    WithinZeroIff(w, Removed(REWRITES, s));
    if w !in BROUGHT {
      BroughtZero(REWRITES, s, w);
    }
  }

  // What the line has once the rewrites are done, and once both tables are.
  function Rewritten(s: string): string {
    RewritesProper();
    Passes(REWRITES, s)
  }

  function BothTables(s: string): string {
    FillerTable(FILLER_PHRASES);
    Passes(FILLER_PHRASES, Rewritten(s))
  }

  // A phrase with this word, that must never be dropped, stands in the text.
  ghost predicate Takes(w: string, t: string) {
    exists q :: q in LOSERS && w in WordsOf(q) && Stands(q, t)
  }

  // On the line caveman() is given: a word that must never be dropped ends up as
  // often as it was there and was brought in by rewrites, if and only if none of
  // the seven phrases with that word stands in the line once rewritten; else less
  // often.
  lemma BothTablesBalance(s: string, w: string)
    requires Has(NEVER_DROP, w)
    ensures ProperRules(REWRITES)
    ensures Times(w, Tokens(BothTables(s))) <= Times(w, Tokens(s)) + Brought(w, REWRITES, s)
    ensures Times(w, Tokens(BothTables(s))) == Times(w, Tokens(s)) + Brought(w, REWRITES, s)
       <==> !Takes(w, Rewritten(s))
  {
    RewritesBalance(s, w);
    FillersKeepIff(Rewritten(s), w);
  }

  // The rewrites bring five words only. Every other one keeps the number it has in
  // the line, if and only if none of those phrases stands in the rewritten line.
  lemma BothTablesKeepIff(s: string, w: string)
    requires Has(NEVER_DROP, w) && w !in BROUGHT
    ensures Times(w, Tokens(BothTables(s))) <= Times(w, Tokens(s))
    ensures Times(w, Tokens(BothTables(s))) == Times(w, Tokens(s)) <==> !Takes(w, Rewritten(s))
  {
    RewritesBalance(s, w);
    BothTablesBalance(s, w);
  }

  // --- protected words that are dropped -----------------------------------------

  // A line with no word that a rewritten phrase can start with is left alone.
  lemma {:induction false} NotRewritten(rs: seq<PlainRule>, s: string, ws: seq<OtherWord>)
    requires Tokens(s) == ws
    ensures ProperRules(rs) && Passes(rs, s) == s
  {
    if rs != [] {
      if Start(rs[0], s) < |s| {
        var p := Hit(rs[0], s);
        HitHasWords(s, Start(rs[0], s), p, p.words[0]);
      }
      NotRewritten(rs[1..], s, ws);
    }
  }

  lemma NotedText()
    ensures Tokens(TextOf(NOTED)) == NOTED.words && Stands(NOTED, TextOf(NOTED))
  {
    var s := TextOf(NOTED);
    PhraseTokens(NOTED);
    NothingBehind(NOTED.words);
    NothingBehind(s);
    SpacedIsLower(NOTED.words);
    assert s[0..|s|] == s;
    assert HitAt(s, 0, s);
  }

  lemma ModalIsProtected(w: string)
    requires Has(MODALS, w)
    ensures Has(NEVER_DROP, w)
  {
    HasAppend(
      NEGATIONS, MORE_NEGATIONS + (EXCEPTIONS + (CONDITIONS + (MODALS + (QUANTIFIERS + CONNECTIVES)))), w);
    HasAppend(MORE_NEGATIONS, EXCEPTIONS + (CONDITIONS + (MODALS + (QUANTIFIERS + CONNECTIVES))), w);
    HasAppend(EXCEPTIONS, CONDITIONS + (MODALS + (QUANTIFIERS + CONNECTIVES)), w);
    HasAppend(CONDITIONS, MODALS + (QUANTIFIERS + CONNECTIVES), w);
    HasAppend(MODALS, QUANTIFIERS + CONNECTIVES, w);
  }

  lemma ShouldIsProtected()
    ensures Has(NEVER_DROP, "should")
  {
    assert MODALS[1..][0] == "should";
    ModalIsProtected("should");
  }

  lemma WouldIsProtected()
    ensures Has(NEVER_DROP, "would")
  {
    HasAt(MODALS, 7);
    ModalIsProtected("would");
  }

  lemma NotedNotRewritten()
    ensures Rewritten(TextOf(NOTED)) == TextOf(NOTED)
  {
    NotedText();
    NotRewritten(REWRITES, TextOf(NOTED), NOTED_WORDS);
  }

  lemma NotedIsErased()
    ensures ProperRules(FILLER_PHRASES) && Has(NEVER_DROP, "should")
    ensures Times("should", Tokens(TextOf(NOTED))) == 1
    ensures Times("should", Tokens(Passes(FILLER_PHRASES, TextOf(NOTED)))) == 0
  {
    NotedText();
    ShouldIsProtected();
    FillersKeepIff(TextOf(NOTED), "should");
    ShouldInNoted();
  }

  lemma ShouldInNoted()
    ensures NOTED in LOSERS && "should" in WordsOf(NOTED) && Times("should", NOTED.words) == 1
  {
    assert LOSERS[0] == NOTED;
    assert NOTED.words[1] == "should";
  }

  // "should" must never be dropped; the rewrites leave it alone, and a filler
  // phrase takes it away.
  lemma FillerDropsShould()
    ensures Has(NEVER_DROP, "should") && Times("should", Tokens(TextOf(NOTED))) == 1
    ensures Times("should", Tokens(BothTables(TextOf(NOTED)))) == 0
  {
    NotedNotRewritten();
    NotedIsErased();
  }

  // Another line: the phrase comes about by rewriting.
  const LIKE_WORDS: seq<OtherWord> := ["i", "would", "like"]
  const TO: seq<OtherWord> := ["to"]
  const GO: seq<OtherWord> := ["go"]
  const MADE_LOSER := (Spaced(LIKE_WORDS) + " ") + (TextOf(IN_ORDER_TO) + (" " + Spaced(GO)))

  // The first pattern replaces p, and no other finds anything.
  lemma RewrittenOnce(rs: seq<PlainRule>, p: Phrase, t: string, a: string, b: string, ws: seq<OtherWord>)
    requires rs != [] && rs[0] == Rule([p], t) && Proper(p) && Closed(a) && Fresh(b)
    requires p.words[0] !in Tokens(a) && p.words[0] !in Tokens(b) && Tokens(a + (t + b)) == ws
    ensures ProperRules(rs) && Passes(rs, a + (TextOf(p) + b)) == a + (t + b)
  {
    ReplaceOnce(p, t, a, b);
    NotRewritten(rs[1..], a + (t + b), ws);
  }

  // The words around a space.
  lemma SpacedAround(front: seq<LowerWord>, back: seq<LowerWord>)
    ensures Closed(Spaced(front) + " ") && Tokens(Spaced(front) + " ") == front
    ensures Fresh(" " + Spaced(back)) && Tokens(" " + Spaced(back)) == back
  {
    TokensOfSpaced(front);
    TokensOfSpaced(back);
    assert Tokens(" ") == [];
    TokensApart(Spaced(front), " ");
    TokensApart(" ", Spaced(back));
    NothingBehind(front);
    NothingInFront(back);
  }

  lemma {:induction false} SpacedMore(ws: seq<string>, w: string)
    requires ws != []
    ensures Spaced(ws + [w]) == (Spaced(ws) + " ") + w
  {
    if |ws| == 1 {
      assert ws + [w] == [ws[0], w];
    } else {
      SpacedMore(ws[1..], w);
      HeadTail(ws, [w]);
      assert ws[0] + " " + ((Spaced(ws[1..]) + " ") + w) == ((ws[0] + " " + Spaced(ws[1..])) + " ") + w;
    }
  }

  // A line of which the first pattern takes the middle.
  lemma RewrittenBetween(rs: seq<PlainRule>, p: Phrase, w: OtherWord, front: seq<OtherWord>, back: seq<OtherWord>)
    requires rs != [] && rs[0] == Rule([p], w) && Proper(p) && front != []
    requires p.words[0] !in front && p.words[0] !in back
    ensures var line := (Spaced(front) + " ") + (TextOf(p) + (" " + Spaced(back)));
            && ProperRules(rs) && Passes(rs, line) == Spaced(front + [w]) + (" " + Spaced(back))
            && Tokens(line) == front + (WordsOf(p) + back)
  {
    var a, b := Spaced(front) + " ", " " + Spaced(back);
    var ws: seq<OtherWord> := [w];
    SpacedAround(front, back);
    PhraseTokens(p);
    TokensOfThree(a, TextOf(p), b);
    TokensOfWord(w);
    TokensOfThree(a, w, b);
    RewrittenOnce(rs, p, w, a, b, front + (ws + back));
    SpacedMore(front, w);
    Assoc(a, w, b);
  }

  lemma FirstRewrite()
    ensures REWRITES != [] && REWRITES[0] == Rule([IN_ORDER_TO], "to") && IN_ORDER_TO.words[0] == "in"
  {
  }

  lemma LikeText()
    ensures TextOf(I_WOULD) == Spaced(LIKE_WORDS + ["to"]) && "in" !in LIKE_WORDS && "in" !in GO
  {
    assert I_WOULD.words == LIKE_WORDS + ["to"];
    NothingBehind(Spaced(I_WOULD.words));
  }

  lemma MadeRewritten()
    ensures Rewritten(MADE_LOSER) == TextOf(I_WOULD) + (" " + Spaced(GO))
    ensures Tokens(MADE_LOSER) == LIKE_WORDS + (WordsOf(IN_ORDER_TO) + GO)
  {
    FirstRewrite();
    LikeText();
    RewrittenBetween(REWRITES, IN_ORDER_TO, TO[0], LIKE_WORDS, GO);
  }

  // The words w part from x and then y behind x, and start nowhere later.
  predicate Parting(w: seq<string>, x: seq<string>, y: seq<string>) {
    x != [] && y != [] && |x| < |w| && w[|x|] != y[0] && w[0] !in x[1..] && w[0] !in y
  }

  // Where q's words can stand in a text of the words x and then y.
  lemma StandsIn(q: Phrase, s: string, x: seq<string>, y: seq<string>)
    requires Proper(q) && Stands(q, s) && Tokens(s) == x + y
    ensures !Parting(WordsOf(q), x, y)
  {
    if x != [] && y != [] && |x| < |WordsOf(q)| {
      StandsBehind(q, s, x, y);
    }
  }

  lemma StandsBehind(q: Phrase, s: string, x: seq<string>, y: seq<string>)
    requires Proper(q) && Stands(q, s) && Tokens(s) == x + y && x != [] && y != [] && |x| < |WordsOf(q)|
    ensures WordsOf(q)[|x|] == y[0] || WordsOf(q)[0] in x[1..] || WordsOf(q)[0] in y
  {
    var n := StandsAsWords(q, s);
    assert Tokens(s)[n + 0] == WordsOf(q)[0] && Tokens(s)[n + |x|] == WordsOf(q)[|x|];
    if 0 < n < |x| {
      assert x[1..][n - 1] == (x + y)[n];
    } else if n >= |x| {
      assert y[n - |x|] == (x + y)[n];
    }
  }

  lemma PartsFrom(q: Phrase, s: string, x: seq<string>, y: seq<string>)
    requires Proper(q) && Tokens(s) == x + y && Parting(WordsOf(q), x, y)
    ensures !Stands(q, s)
  {
    if Stands(q, s) {
      StandsIn(q, s, x, y);
    }
  }

  lemma OnlyWould(q: Phrase)
    requires q in LOSERS && "would" in WordsOf(q)
    ensures q == I_WOULD
  {
  }

  lemma LikeParts()
    ensures Parting(WordsOf(I_WOULD), LIKE_WORDS, WordsOf(IN_ORDER_TO) + GO)
  {
    assert WordsOf(I_WOULD)[3] == "to" && WordsOf(IN_ORDER_TO)[0] == "in";
  }

  lemma IWouldDoesNotStand()
    ensures !Stands(I_WOULD, MADE_LOSER)
  {
    MadeRewritten();
    LikeParts();
    PartsFrom(I_WOULD, MADE_LOSER, LIKE_WORDS, WordsOf(IN_ORDER_TO) + GO);
  }

  lemma WouldDoesNotStand()
    ensures !Takes("would", MADE_LOSER)
  {
    IWouldDoesNotStand();
    forall q | q in LOSERS && "would" in WordsOf(q) ensures !Stands(q, MADE_LOSER) {
      OnlyWould(q);
    }
  }

  lemma WouldStands()
    ensures Takes("would", Rewritten(MADE_LOSER))
  {
    MadeRewritten();
    StandsInFront(I_WOULD, " " + Spaced(GO));
    IWouldLoses();
  }

  lemma IWouldLoses()
    ensures I_WOULD in LOSERS && "would" in WordsOf(I_WOULD)
  {
    assert LOSERS[3] == I_WOULD && I_WOULD.words[1] == "would";
  }

  lemma WouldOnce()
    ensures Times("would", Tokens(MADE_LOSER)) == 1
  {
    MadeRewritten();
    InThreeParts("would", LIKE_WORDS, WordsOf(IN_ORDER_TO), GO);
  }

  lemma LosesOne(s: string, w: string)
    requires Has(NEVER_DROP, w) && w !in BROUGHT && Times(w, Tokens(s)) == 1 && Takes(w, Rewritten(s))
    ensures Times(w, Tokens(BothTables(s))) == 0
  {
    BothTablesKeepIff(s, w);
  }

  lemma NotBrought()
    ensures "would" !in BROUGHT
  {
  }

  // No phrase with "would" stands in this line, and it loses its "would": the
  // rewrites make one.
  lemma RewriteMakesLoser()
    ensures Has(NEVER_DROP, "would") && Times("would", Tokens(MADE_LOSER)) == 1
    ensures !Takes("would", MADE_LOSER) && Times("would", Tokens(BothTables(MADE_LOSER))) == 0
  {
    WouldIsProtected();
    WouldOnce();
    WouldStands();
    WouldDoesNotStand();
    NotBrought();
    LosesOne(MADE_LOSER, "would");
  }
}
