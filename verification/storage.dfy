/**
 * The server's in-memory store (`MemStorage`): users, content sections keyed by
 * slug, quiz questions and per-user progress records, with one id counter per
 * table. Every operation is a function from the old store to the new one; the
 * clock is a parameter.
 */
module Storage {
  import opened Wrappers
  import opened Seqs
  import opened OrderedMaps

  datatype User = User(id: int, username: string, email: Option<string>, password: string)
  datatype InsertUser = InsertUser(username: string, email: Option<string>, password: string)

  datatype Section = Section(id: int, title: string, slug: string, order: int, content: string)

  datatype QuizOption = QuizOption(id: string, text: string)
  datatype QuizQuestion = QuizQuestion(id: int, question: string, options: seq<QuizOption>, correctAnswer: string, explanation: string)

  datatype UserProgress = UserProgress(
    id: int,
    userId: int,
    progress: int,
    completedSections: seq<string>,
    quizScores: map<string, int>,
    sectionProgress: map<string, int>,
    lastAccessed: string)

  /** A `Partial<InsertUserProgress>`: `None` is a field the caller left out. */
  datatype ProgressUpdate = ProgressUpdate(
    userId: Option<int>,
    progress: Option<int>,
    completedSections: Option<seq<string>>,
    quizScores: Option<map<string, int>>,
    sectionProgress: Option<map<string, int>>,
    lastAccessed: Option<string>)

  datatype Store = Store(
    users: OrderedMap<int, User>,
    sections: OrderedMap<string, Section>,
    quizQuestions: seq<QuizQuestion>,
    userProgress: OrderedMap<int, UserProgress>,
    currentUserId: int,
    currentSectionId: int,
    currentQuizId: int,
    currentProgressId: int)

  /** Users were inserted under ids 1, 2, …, next - 1, in that order, and each carries its own key. */
  ghost predicate UsersValid(users: OrderedMap<int, User>, next: int) {
    OrderedMaps.Valid(users) &&
    next >= 1 && |users.keys| == next - 1 &&
    (forall i :: 0 <= i < |users.keys| ==> users.keys[i] == i + 1) &&
    (forall id :: id in users.entries ==> users.entries[id].id == id)
  }

  /** Every section is stored under its own slug. */
  ghost predicate SectionsValid(sections: OrderedMap<string, Section>) {
    OrderedMaps.Valid(sections) &&
    forall slug :: slug in sections.entries ==> sections.entries[slug].slug == slug
  }

  /** Progress records have distinct ids, all between 1 and next - 1. */
  ghost predicate ProgressValid(progress: OrderedMap<int, UserProgress>, next: int) {
    OrderedMaps.Valid(progress) &&
    next >= 1 &&
    (forall u :: u in progress.entries ==> 1 <= progress.entries[u].id < next) &&
    (forall u, v :: u in progress.entries && v in progress.entries && u != v ==>
      progress.entries[u].id != progress.entries[v].id)
  }

  /** Quiz questions have distinct ids, all between 1 and next - 1. */
  ghost predicate QuizValid(qs: seq<QuizQuestion>, next: int) {
    next >= 1 &&
    (forall i :: 0 <= i < |qs| ==> 1 <= qs[i].id < next) &&
    (forall i, j :: 0 <= i < j < |qs| ==> qs[i].id != qs[j].id)
  }

  /** What every reachable store satisfies. */
  ghost predicate Valid(st: Store) {
    UsersValid(st.users, st.currentUserId) &&
    SectionsValid(st.sections) &&
    QuizValid(st.quizQuestions, st.currentQuizId) &&
    ProgressValid(st.userProgress, st.currentProgressId)
  }

  // ----- construction -----

  const SectionSlugs: seq<string> := ["introduction", "architecture", "embeddings", "attention"]

  /** The field initialisers of the constructor, before the sample content is added. */
  function Initial(): (st: Store)
    ensures Valid(st)
  {
    Store(Empty(), Empty(), [], Empty(), 1, 1, 1, 1)
  }

  /** `sections.set(section.slug, section)` */
  function AddSection(sections: OrderedMap<string, Section>, sec: Section): (r: OrderedMap<string, Section>)
    requires SectionsValid(sections)
    ensures SectionsValid(r)
    ensures sec.slug !in sections.entries ==> Values(r) == Values(sections) + [sec]
    ensures Get(r, sec.slug) == Some(sec)
    ensures forall slug :: slug != sec.slug ==> Get(r, slug) == Get(sections, slug)
  {
    if sec.slug in sections.entries then Set(sections, sec.slug, sec)
    else ValuesSetNew(sections, sec.slug, sec); Set(sections, sec.slug, sec)
  }

  /** No two of the sections share a slug. */
  ghost predicate DistinctSlugs(secs: seq<Section>) {
    forall i, j :: 0 <= i < j < |secs| ==> secs[i].slug != secs[j].slug
  }

  /** Adds the sections one after another, as `initializeContent` does. */
  function AddSections(sections: OrderedMap<string, Section>, secs: seq<Section>): (r: OrderedMap<string, Section>)
    requires SectionsValid(sections)
    ensures SectionsValid(r)
    decreases |secs|
  {
    if secs == [] then sections else AddSections(AddSection(sections, secs[0]), secs[1..])
  }

  /** Adding sections with new, distinct slugs lists them after the existing ones, in the order added. */
  lemma {:induction false} AddSectionsValues(sections: OrderedMap<string, Section>, secs: seq<Section>)
    requires SectionsValid(sections)
    requires DistinctSlugs(secs)
    requires forall i :: 0 <= i < |secs| ==> secs[i].slug !in sections.entries
    ensures Values(AddSections(sections, secs)) == Values(sections) + secs
    decreases |secs|
  {
    if secs != [] {
      var m1 := AddSection(sections, secs[0]);
      var rest := secs[1..];
      assert AddSections(sections, secs) == AddSections(m1, rest);
      AddSectionFirst(sections, secs);
      AddSectionsValues(m1, rest);
      AppendCons(Values(sections), secs);
    }
  }

  lemma AppendCons<T>(xs: seq<T>, ys: seq<T>)
    requires ys != []
    ensures xs + [ys[0]] + ys[1..] == xs + ys
  {
    assert ys == [ys[0]] + ys[1..];
  }

  /** After the first of the new sections is added, the rest are still new and distinct. */
  lemma AddSectionFirst(sections: OrderedMap<string, Section>, secs: seq<Section>)
    requires SectionsValid(sections)
    requires DistinctSlugs(secs)
    requires forall i :: 0 <= i < |secs| ==> secs[i].slug !in sections.entries
    requires secs != []
    ensures Values(AddSection(sections, secs[0])) == Values(sections) + [secs[0]]
    ensures DistinctSlugs(secs[1..])
    ensures forall i :: 0 <= i < |secs| - 1 ==> secs[1..][i].slug !in AddSection(sections, secs[0]).entries
  {
    var m1 := AddSection(sections, secs[0]);
    var rest := secs[1..];
    forall i | 0 <= i < |rest| ensures rest[i].slug !in m1.entries {
      assert rest[i] == secs[i + 1];
      assert Get(m1, rest[i].slug) == Get(sections, rest[i].slug);
    }
    forall i, j | 0 <= i < j < |rest| ensures rest[i].slug != rest[j].slug {
      assert rest[i] == secs[i + 1] && rest[j] == secs[j + 1];
    }
  }

  const Quiz1Question := "What's the main advantage of self-attention over recurrent neural networks?"
  const Quiz1Options := [
    QuizOption("a", "Self-attention requires less memory"),
    QuizOption("b", "Self-attention creates smaller models"),
    QuizOption("c", "Self-attention allows parallelization of sequence processing"),
    QuizOption("d", "Self-attention automatically improves accuracy")]
  const Quiz1Explanation := "Self-attention allows the model to process all tokens in the sequence in parallel, unlike RNNs which must process tokens sequentially."
  const Quiz2Question := "What is the purpose of the scaling factor in the attention formula?"
  const Quiz2Options := [
    QuizOption("a", "To reduce the model's memory usage"),
    QuizOption("b", "To stabilize gradients during training"),
    QuizOption("c", "To make the model run faster"),
    QuizOption("d", "To increase the attention span")]
  const Quiz2Explanation := "The scaling factor prevents the dot products from growing too large in magnitude, which would push the softmax function into regions with very small gradients."

  /** The two sample quiz questions, numbered from `q`. */
  function SampleQuiz(q: int): (qs: seq<QuizQuestion>)
    ensures |qs| == 2 && qs[0].id == q && qs[1].id == q + 1
    ensures qs[0].correctAnswer == "c" && qs[1].correctAnswer == "b"
  {
    [QuizQuestion(q, Quiz1Question, Quiz1Options, "c", Quiz1Explanation),
     QuizQuestion(q + 1, Quiz2Question, Quiz2Options, "b", Quiz2Explanation)]
  }

  const IntroTitle := "Introduction to Transformer Models"
  const IntroContent := "Transformer models have revolutionized NLP..."
  const ArchitectureTitle := "Transformer Architecture Overview"
  const ArchitectureContent := "The Transformer architecture consists of an encoder-decoder structure..."
  const EmbeddingTitle := "Embeddings & Positional Encoding"
  const EmbeddingContent := "Before words can be processed by the Transformer architecture..."
  const AttentionTitle := "Self-Attention Mechanism"
  const AttentionContent := "The self-attention mechanism is at the heart of the Transformer architecture..."

  /** The four sample sections, numbered from `id`, in the order they are added. */
  function SampleSections(id: int): (secs: seq<Section>)
    ensures |secs| == 4
    ensures forall i :: 0 <= i < 4 ==> secs[i].id == id + i && secs[i].order == i + 1 && secs[i].slug == SectionSlugs[i]
  {
    [Section(id, IntroTitle, SectionSlugs[0], 1, IntroContent),
     Section(id + 1, ArchitectureTitle, SectionSlugs[1], 2, ArchitectureContent),
     Section(id + 2, EmbeddingTitle, SectionSlugs[2], 3, EmbeddingContent),
     Section(id + 3, AttentionTitle, SectionSlugs[3], 4, AttentionContent)]
  }

  /** `initializeContent`: four sections and two quiz questions, numbered from the counters. */
  function InitializeContent(st: Store): (st': Store)
    requires Valid(st)
    ensures Valid(st')
    ensures st'.users == st.users && st'.userProgress == st.userProgress
    ensures st'.currentSectionId == st.currentSectionId + 4 && st'.currentQuizId == st.currentQuizId + 2
    ensures st'.currentUserId == st.currentUserId && st'.currentProgressId == st.currentProgressId
    ensures st'.quizQuestions == SampleQuiz(st.currentQuizId)
  {
    st.(sections := AddSections(st.sections, SampleSections(st.currentSectionId)), currentSectionId := st.currentSectionId + 4,
        quizQuestions := SampleQuiz(st.currentQuizId), currentQuizId := st.currentQuizId + 2)
  }

  /** `new MemStorage()` */
  function Fresh(): (st: Store)
    ensures Valid(st)
    ensures st.users.keys == [] && st.userProgress.keys == []
    ensures st.currentUserId == 1 && st.currentProgressId == 1
    ensures st.currentSectionId == 5 && st.currentQuizId == 3
  {
    InitializeContent(Initial())
  }

  // ----- users -----

  /** `getUser(id)` */
  function GetUser(st: Store, id: int): (r: Option<User>)
    ensures r.Some? <==> id in st.users.entries
    ensures Valid(st) && r.Some? ==> r.value.id == id && 1 <= id < st.currentUserId
  {
    Get(st.users, id)
  }

  /** `getUserByUsername`: the first user, in insertion order, with that username — the one with the smallest id. */
  function GetUserByUsername(st: Store, username: string): (r: Option<User>)
    requires Valid(st)
    ensures r.None? <==> forall id :: id in st.users.entries ==> st.users.entries[id].username != username
    ensures r.Some? ==> GetUser(st, r.value.id) == r && r.value.username == username
    ensures r.Some? ==> forall id :: id in st.users.entries && st.users.entries[id].username == username ==> r.value.id <= id
  {
    var vs := Values(st.users);
    var r := Find(vs, (u: User) => u.username == username);
    if r.Some? then
      var i :| 0 <= i < |vs| && vs[i] == r.value && vs[i].username == username &&
        forall j :: 0 <= j < i ==> vs[j].username != username;
      assert st.users.keys[i] == i + 1;
      forall id | id in st.users.entries && st.users.entries[id].username == username
        ensures i + 1 <= id
      {
        var j :| 0 <= j < |st.users.keys| && st.users.keys[j] == id;
        assert vs[j].username == username;
      }
      r
    else
      forall id | id in st.users.entries ensures st.users.entries[id].username != username {
        var j :| 0 <= j < |st.users.keys| && st.users.keys[j] == id;
        assert vs[j] == st.users.entries[id];
      }
      r
  }

  /** `createUser`: the user gets the next id, is stored under it, and no other user changes. */
  function CreateUser(st: Store, ins: InsertUser): (res: (Store, User))
    requires Valid(st)
    ensures var (st', u) := res;
      Valid(st') &&
      u == User(st.currentUserId, ins.username, ins.email, ins.password) &&
      GetUser(st, u.id) == None &&
      GetUser(st', u.id) == Some(u) &&
      (forall id :: id != u.id ==> GetUser(st', id) == GetUser(st, id)) &&
      st'.currentUserId == st.currentUserId + 1 &&
      st' == st.(users := st'.users, currentUserId := st'.currentUserId)
  {
    var id := st.currentUserId;
    var u := User(id, ins.username, ins.email, ins.password);
    assert id !in st.users.keys;
    var users := Set(st.users, id, u);
    (st.(users := users, currentUserId := id + 1), u)
  }

  /** The head user and the users created after it, read back from the final store. */
  lemma CreateUsersStep(st: Store, st1: Store, st2: Store, u: User, us: seq<User>, n: nat)
    requires n == |us| + 1
    requires st1.currentUserId == st.currentUserId + 1 && u.id == st.currentUserId
    requires GetUser(st1, u.id) == Some(u)
    requires forall i :: 0 <= i < |us| ==> GetUser(st2, st1.currentUserId + i) == Some(us[i])
    requires forall id :: id < st1.currentUserId ==> GetUser(st2, id) == GetUser(st1, id)
    ensures forall i :: 0 <= i < n ==> GetUser(st2, st.currentUserId + i) == Some(([u] + us)[i])
  {
    forall i | 0 <= i < n ensures GetUser(st2, st.currentUserId + i) == Some(([u] + us)[i]) {
      if i > 0 {
        assert ([u] + us)[i] == us[i - 1];
        assert st.currentUserId + i == st1.currentUserId + (i - 1);
      }
    }
  }

  /**
   * Several `createUser` calls in a row: the users come back in call order with
   * consecutive ids from the counter, each can be read back by its id, and the
   * users that existed before are untouched.
   */
  function CreateUsers(st: Store, inss: seq<InsertUser>): (res: (Store, seq<User>))
    requires Valid(st)
    ensures Valid(res.0) && |res.1| == |inss|
    ensures res.0.currentUserId == st.currentUserId + |inss|
    ensures forall i :: 0 <= i < |inss| ==>
      res.1[i] == User(st.currentUserId + i, inss[i].username, inss[i].email, inss[i].password)
    ensures forall i :: 0 <= i < |inss| ==> GetUser(res.0, st.currentUserId + i) == Some(res.1[i])
    ensures forall id :: id < st.currentUserId ==> GetUser(res.0, id) == GetUser(st, id)
    decreases |inss|
  {
    if inss == [] then (st, [])
    else
      var (st1, u) := CreateUser(st, inss[0]);
      var (st2, us) := CreateUsers(st1, inss[1..]);
      CreateUsersStep(st, st1, st2, u, us, |inss|);
      (st2, [u] + us)
  }

  /** On a fresh store the first user created gets id 1, the second id 2, and so on. */
  lemma FreshUserIds(inss: seq<InsertUser>)
    ensures var us := CreateUsers(Fresh(), inss).1;
      forall i :: 0 <= i < |us| ==> us[i].id == i + 1
  {
    FreshStore();
  }

  // ----- content -----

  ghost predicate SortedByOrder(s: seq<Section>) {
    forall i, j :: 0 <= i < j < |s| ==> s[i].order <= s[j].order
  }

  /** Inserts `x` before the first element whose order is not smaller, keeping equal-order elements in place after it. */
  function InsertByOrder(x: Section, s: seq<Section>): (r: seq<Section>)
    requires SortedByOrder(s)
    ensures SortedByOrder(r)
    ensures multiset(r) == multiset(s) + multiset{x}
    ensures r != [] && (r[0] == x || (s != [] && r[0] == s[0]))
    decreases |s|
  {
    if s == [] || x.order <= s[0].order then [x] + s
    else
      var rest := InsertByOrder(x, s[1..]);
      assert s == [s[0]] + s[1..];
      ConsSorted(s[0], rest);
      assert multiset([s[0]] + rest) == multiset{s[0]} + multiset(rest);
      [s[0]] + rest
  }

  /** A sorted list stays sorted when an element no larger than its head is put in front. */
  lemma ConsSorted(y: Section, rest: seq<Section>)
    requires SortedByOrder(rest)
    requires rest != [] ==> y.order <= rest[0].order
    ensures SortedByOrder([y] + rest)
  {
    forall i, j | 0 <= i < j < |[y] + rest| ensures ([y] + rest)[i].order <= ([y] + rest)[j].order {
      if i == 0 {
        assert ([y] + rest)[j] == rest[j - 1];
        assert rest[0].order <= rest[j - 1].order;
      } else {
        assert ([y] + rest)[i] == rest[i - 1] && ([y] + rest)[j] == rest[j - 1];
      }
    }
  }

  /** `Array.prototype.sort` with comparator `(a, b) => a.order - b.order`: sorts by `order`. */
  function SortByOrder(s: seq<Section>): (r: seq<Section>)
    ensures SortedByOrder(r)
    ensures multiset(r) == multiset(s)
    decreases |s|
  {
    if s == [] then []
    else
      assert s == [s[0]] + s[1..];
      InsertByOrder(s[0], SortByOrder(s[1..]))
  }

  /** Sorting an already sorted list leaves it as it is. */
  lemma {:induction false} SortSorted(s: seq<Section>)
    requires SortedByOrder(s)
    ensures SortByOrder(s) == s
    decreases |s|
  {
    if s != [] {
      SortSorted(s[1..]);
    }
  }

  /** `getAllSections`: every stored section exactly once, ascending by `order`. */
  function GetAllSections(st: Store): (r: seq<Section>)
    requires Valid(st)
    ensures SortedByOrder(r)
    ensures multiset(r) == multiset(Values(st.sections))
    ensures forall s :: s in r <==> exists slug :: slug in st.sections.entries && st.sections.entries[slug] == s
  {
    var r := SortByOrder(Values(st.sections));
    forall s ensures s in r <==> s in Values(st.sections) {
      assert s in r <==> s in multiset(r);
    }
    forall s ensures s in Values(st.sections) <==> exists slug :: slug in st.sections.entries && st.sections.entries[slug] == s {
      ValuesAreEntries(st.sections, s);
    }
    r
  }

  datatype Metadata = Metadata(title: string, description: string, lastUpdated: string)
  datatype Content = Content(sections: seq<Section>, metadata: Metadata)

  /** `getContent`: the same section list as `getAllSections`, plus fixed metadata stamped with the clock. */
  function GetContent(st: Store, now: string): (c: Content)
    requires Valid(st)
    ensures c.sections == GetAllSections(st)
    ensures c.metadata.lastUpdated == now
  {
    Content(GetAllSections(st), Metadata("Understanding Transformer Models",
      "Learn about the architecture and implementation of transformer-based language models", now))
  }

  /** `getSection(slug)`: the section stored under that slug, whose own slug is that slug. */
  function GetSection(st: Store, slug: string): (r: Option<Section>)
    requires Valid(st)
    ensures r.Some? ==> r.value.slug == slug && r.value in GetAllSections(st)
    ensures r.None? <==> forall s :: s in GetAllSections(st) ==> s.slug != slug
  {
    var r := Get(st.sections, slug);
    assert r.Some? ==> st.sections.entries[slug] == r.value;
    r
  }

  /** `getQuizQuestions` */
  function GetQuizQuestions(st: Store): (qs: seq<QuizQuestion>)
    ensures Valid(st) ==> forall i :: 0 <= i < |qs| ==> 1 <= qs[i].id < st.currentQuizId
    ensures Valid(st) ==> forall i, j :: 0 <= i < j < |qs| ==> qs[i].id != qs[j].id
  {
    st.quizQuestions
  }

  // ----- progress -----

  /** `getUserProgress(userId)` */
  function GetUserProgress(st: Store, userId: int): (r: Option<UserProgress>)
    ensures r.Some? <==> userId in st.userProgress.entries
    ensures Valid(st) && r.Some? ==> 1 <= r.value.id < st.currentProgressId
  {
    Get(st.userProgress, userId)
  }

  /** The spread `{ ...progress, ...update, lastAccessed: now }`. */
  function Merge(p: UserProgress, upd: ProgressUpdate, now: string): (r: UserProgress)
    ensures r.id == p.id
    ensures r.userId == upd.userId.GetOr(p.userId)
    ensures r.progress == upd.progress.GetOr(p.progress)
    ensures r.completedSections == upd.completedSections.GetOr(p.completedSections)
    ensures r.quizScores == upd.quizScores.GetOr(p.quizScores)
    ensures r.sectionProgress == upd.sectionProgress.GetOr(p.sectionProgress)
    ensures r.lastAccessed == now
  {
    UserProgress(
      p.id,
      upd.userId.GetOr(p.userId),
      upd.progress.GetOr(p.progress),
      upd.completedSections.GetOr(p.completedSections),
      upd.quizScores.GetOr(p.quizScores),
      upd.sectionProgress.GetOr(p.sectionProgress),
      now)
  }

  /**
   * `updateUserProgress`: finds the user's record or starts a new one with the
   * next progress id and zero/empty fields, applies the supplied fields, stamps
   * the clock and stores the result under the user id.
   */
  function UpdateUserProgress(st: Store, userId: int, upd: ProgressUpdate, now: string): (res: (Store, UserProgress))
    requires Valid(st)
    ensures var (st', rec) := res;
      Valid(st') &&
      GetUserProgress(st', userId) == Some(rec) &&
      (forall u :: u != userId ==> GetUserProgress(st', u) == GetUserProgress(st, u)) &&
      st' == st.(userProgress := st'.userProgress, currentProgressId := st'.currentProgressId) &&
      rec.lastAccessed == now
    ensures var (st', rec) := res;
      match GetUserProgress(st, userId)
      case None =>
        rec == Merge(UserProgress(st.currentProgressId, userId, 0, [], map[], map[], now), upd, now) &&
        st'.currentProgressId == st.currentProgressId + 1
      case Some(p) =>
        rec == Merge(p, upd, now) && st'.currentProgressId == st.currentProgressId
  {
    var (base, next) :=
      match Get(st.userProgress, userId)
      case None => (UserProgress(st.currentProgressId, userId, 0, [], map[], map[], now), st.currentProgressId + 1)
      case Some(p) => (p, st.currentProgressId);
    var rec := Merge(base, upd, now);
    var progress := Set(st.userProgress, userId, rec);
    (st.(userProgress := progress, currentProgressId := next), rec)
  }

  /** Applying the same update to a record it has already been applied to changes nothing. */
  lemma MergeAbsorbs(p: UserProgress, upd: ProgressUpdate, now: string)
    ensures Merge(Merge(p, upd, now), upd, now) == Merge(p, upd, now)
  {
  }

  /** Sending the same update twice leaves the same record as sending it once, and only the first can allocate an id. */
  lemma UpdateUserProgressTwice(st: Store, userId: int, upd: ProgressUpdate, now: string)
    requires Valid(st)
    ensures var (st1, rec1) := UpdateUserProgress(st, userId, upd, now);
      var (st2, rec2) := UpdateUserProgress(st1, userId, upd, now);
      rec2 == rec1 && st2 == st1
  {
    var (st1, rec1) := UpdateUserProgress(st, userId, upd, now);
    MergeAbsorbs(if GetUserProgress(st, userId).Some? then GetUserProgress(st, userId).value
      else UserProgress(st.currentProgressId, userId, 0, [], map[], map[], now), upd, now);
    SetUnchanged(st1.userProgress, userId, rec1);
  }

  /** A user's record, once created, keeps its progress id through every later update. */
  lemma ProgressIdStable(st: Store, userId: int, upd: ProgressUpdate, now: string)
    requires Valid(st)
    requires GetUserProgress(st, userId).Some?
    ensures UpdateUserProgress(st, userId, upd, now).1.id == GetUserProgress(st, userId).value.id
  {
  }

  // ----- the fresh store -----

  /** A new store: no users and no progress, four sections ordered 1–4, two quiz questions with ids 1 and 2. */
  lemma SortedSectionsListed(st: Store, secs: seq<Section>)
    requires Valid(st)
    requires Values(st.sections) == secs && SortedByOrder(secs)
    ensures GetAllSections(st) == secs
  {
    SortSorted(secs);
  }

  lemma SampleSlugsDistinct(id: int)
    ensures DistinctSlugs(SampleSections(id))
  {
    assert SectionSlugs[0][0] == 'i' && SectionSlugs[1][1] == 'r' && SectionSlugs[2][0] == 'e' && SectionSlugs[3][1] == 't';
  }

  /** Sections added to an empty map with distinct slugs, already in ascending order, are listed as added. */
  lemma AddedSectionsListed(st: Store, secs: seq<Section>)
    requires Valid(st)
    requires st.sections == AddSections(Empty(), secs)
    requires DistinctSlugs(secs) && SortedByOrder(secs)
    ensures GetAllSections(st) == secs
  {
    var m0: OrderedMap<string, Section> := Empty();
    assert Values(m0) == [];
    AddSectionsValues(m0, secs);
    SortedSectionsListed(st, secs);
  }

  /** The sample sections are listed in the order they were added, which is already ascending by `order`. */
  lemma FreshSections()
    ensures GetAllSections(Fresh()) == SampleSections(1)
  {
    var secs := SampleSections(1);
    SampleSlugsDistinct(1);
    assert SortedByOrder(secs);
    assert Fresh().sections == AddSections(Empty(), secs);
    AddedSectionsListed(Fresh(), secs);
  }

  /** A new store: no users and no progress, four sections ordered 1–4, two quiz questions with ids 1 and 2. */
  lemma FreshStore()
    ensures Valid(Fresh())
    ensures Fresh().users.keys == [] && Fresh().userProgress.keys == []
    ensures Fresh().currentUserId == 1 && Fresh().currentProgressId == 1
    ensures Fresh().currentSectionId == 5 && Fresh().currentQuizId == 3
    ensures var secs := GetAllSections(Fresh());
      |secs| == 4 &&
      forall i :: 0 <= i < 4 ==> secs[i].slug == SectionSlugs[i] && secs[i].order == i + 1 && secs[i].id == i + 1
    ensures |GetQuizQuestions(Fresh())| == 2
    ensures GetQuizQuestions(Fresh())[0].id == 1 && GetQuizQuestions(Fresh())[0].correctAnswer == "c"
    ensures GetQuizQuestions(Fresh())[1].id == 2 && GetQuizQuestions(Fresh())[1].correctAnswer == "b"
  {
    FreshSections();
  }
}
