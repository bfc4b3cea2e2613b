/** ChainIndexer of core/chain_indexer.go, without checkpoints and children. The updater gives up the lock while it
    processes a section, so its work is a series of steps between which anything else may happen. */
module ChainIndexers {
  import opened Integers
  import opened Transactions
  import opened Headers
  import opened HashFns

  /** A section in processing: the head of the section before it when it was started, the next block number, the
      last block processed, and whether an error ended the work. */
  datatype Job = Job(section: nat, oldHead: Hash, number: nat, lastHead: Hash, failed: bool)

  /** A step of the indexer or of something around it. `canon` and `stored` are what the chain database holds at
      that step. */
  datatype Step =
    | NewHead(head: nat, reorg: bool)
    | Sections(canon: map<nat, Hash>)
    | Begin(canon: map<nat, Hash>)
    | ResetFailed
    | ProcessBlock(canon: map<nat, Hash>, stored: set<Header>, backendOk: bool)
    | Finish(canon: map<nat, Hash>, commitOk: bool)

  /** The number of the last block of a section. */
  function LastOf(section: nat, size: nat): int {
    (section + 1) * size - 1
  }

  /** There is a head for exactly the sections below `stored`; each is the last block of its section, and descends
      from the one before by a whole section. */
  ghost predicate HeadsOk(heads: map<nat, Hash>, stored: nat, size: nat) {
    && (forall i: nat :: i in heads <==> i < stored)
    && (forall i: nat :: i < stored ==> HeadOk(heads, i, size))
  }

  ghost predicate HeadOk(heads: map<nat, Hash>, i: nat, size: nat) {
    && i in heads && heads[i].Keccak? && heads[i].header.number == LastOf(i, size)
    && Up(heads[i], size) == if i == 0 then Zero else if i - 1 in heads then heads[i - 1] else Zero
  }

  /** The last block processed descends from the old section head by the blocks processed so far. */
  ghost predicate JobOk(job: Job, stored: nat, size: nat) {
    && stored <= job.section && job.section * size <= job.number <= (job.section + 1) * size
    && Up(job.lastHead, job.number - job.section * size) == job.oldHead
    && (job.number > 0 ==> job.lastHead.Keccak? && job.lastHead.header.number == job.number - 1)
    && (job.number == 0 ==> job.lastHead == Zero)
    && (job.section == 0 ==> job.oldHead == Zero) && (job.section > 0 ==> job.oldHead.Keccak?)
  }

  /** One more section head on top of the others. */
  lemma HeadAdded(heads: map<nat, Hash>, stored: nat, size: nat, head: Hash)
    requires HeadsOk(heads, stored, size) && head.Keccak? && head.header.number == LastOf(stored, size)
    requires Up(head, size) == if stored == 0 then Zero else heads[stored - 1]
    ensures HeadsOk(heads[stored := head], stored + 1, size)
  {
    hide Up, LastOf;
    var heads' := heads[stored := head];
    forall i: nat | i <= stored ensures HeadOk(heads', i, size) {
      if i < stored {
        assert HeadOk(heads, i, size);
      }
    }
  }

  lemma HeadsCut(heads: map<nat, Hash>, stored: nat, size: nat, n: nat)
    requires HeadsOk(heads, stored, size) && n <= stored
    ensures HeadsOk(map i | i in heads && i < n :: heads[i], n, size)
  {
    hide Up, LastOf;
    var heads' := map i | i in heads && i < n :: heads[i];
    forall i: nat | i < n ensures HeadOk(heads', i, size) {
      assert HeadOk(heads, i, size);
    }
  }

  /** If the last section head is on a chain, so are all before it. */
  lemma {:induction false} AllOnChain(heads: map<nat, Hash>, stored: nat, size: nat, canon: map<nat, Hash>,
                                      head: Header, i: nat)
    requires size > 0 && HeadsOk(heads, stored, size) && IsCanon(canon, head) && i < stored
    requires LastOf(stored - 1, size) in canon && canon[LastOf(stored - 1, size)] == heads[stored - 1]
    ensures LastOf(i, size) in canon && canon[LastOf(i, size)] == heads[i]
    decreases stored - i
  {
    hide Up, IsCanon;
    if i < stored - 1 {
      AllOnChain(heads, stored, size, canon, head, i + 1);
      assert HeadOk(heads, i + 1, size);
      assert LastOf(i + 1, size) - size == LastOf(i, size) >= 0;
      CanonUp(canon, head, LastOf(i + 1, size), size);
    }
  }

  class ChainIndexer {
    const sectionSize: nat
    const confirmsReq: nat
    var storedSections: nat
    var knownSections: nat
    var heads: map<nat, Hash>
    var job: Option<Job>

    /** The invariant of every step. */
    ghost predicate Valid()
      reads this
    {
      && sectionSize > 0 && HeadsOk(heads, storedSections, sectionSize)
      && (job.Some? ==> JobOk(job.value, storedSections, sectionSize))
    }

    constructor (section: nat, confirm: nat)
      requires section > 0
      ensures Valid() && storedSections == 0
    {
      sectionSize, confirmsReq, storedSections, knownSections := section, confirm, 0, 0;
      heads, job := map[], None;
    }

    /** SectionHead: zero if there is none. */
    function SectionHead(section: nat): Hash
      reads this
    {
      if section in heads then heads[section] else Zero
    }

    /** setValidSections, downwards: heads of later sections go. */
    method SetValidSections(sections: nat)
      requires Valid() && sections <= storedSections
      modifies this`storedSections, this`heads
      ensures Valid() && storedSections == sections && heads == map i | i in old(heads) && i < sections :: old(heads)[i]
    {
      hide HeadOk, JobOk;
      HeadsCut(heads, storedSections, sectionSize, sections);
      JobKept(job, storedSections, sections, sectionSize);
      while storedSections > sections
        invariant sections <= storedSections <= old(storedSections)
        invariant heads == map i | i in old(heads) && i < storedSections :: old(heads)[i]
      {
        storedSections := storedSections - 1;
        heads := heads - {storedSections};
      }
    }

    /** Of the heads of before, those up to the last one on the canonical chain are left. */
    ghost predicate VerifiedDown(heads0: map<nat, Hash>, stored0: nat, canon: map<nat, Hash>)
      reads this
    {
      && storedSections <= stored0 && (forall i :: i in heads ==> i in heads0 && heads[i] == heads0[i])
      && (storedSections > 0 ==>
            LastOf(storedSections - 1, sectionSize) >= 0
            && SectionHead(storedSections - 1) == ReadCanonicalHash(canon, LastOf(storedSections - 1, sectionSize)))
      && forall i: nat :: storedSections <= i < stored0 && i in heads0 && LastOf(i, sectionSize) >= 0 ==>
           heads0[i] != ReadCanonicalHash(canon, LastOf(i, sectionSize))
    }

    /** verifyLastHead rolls back sections until the last one is on the canonical chain. */
    method VerifyLastHead(canon: map<nat, Hash>)
      requires Valid()
      modifies this`storedSections, this`heads
      ensures Valid() && VerifiedDown(old(heads), old(storedSections), canon)
    {
      hide HeadsOk;
      while storedSections > 0
        invariant Valid() && storedSections <= old(storedSections)
        invariant forall i :: i in heads ==> i in old(heads) && heads[i] == old(heads)[i]
        invariant forall i: nat :: i < storedSections ==> SectionHead(i) == old(SectionHead(i))
        invariant forall i: nat ::
                    storedSections <= i < old(storedSections) && i in old(heads) && LastOf(i, sectionSize) >= 0 ==>
                      old(heads)[i] != ReadCanonicalHash(canon, LastOf(i, sectionSize))
        decreases storedSections
      {
        LastNonNegative(storedSections - 1, sectionSize);
        if SectionHead(storedSections - 1) == ReadCanonicalHash(canon, LastOf(storedSections - 1, sectionSize)) {
          return;
        }
        SetValidSections(storedSections - 1);
      }
    }

    /** newHead: a reorg takes back the sections from its point on, a new head may complete sections. */
    method NewHead(head: nat, reorg: bool)
      requires Valid()
      modifies this`storedSections, this`knownSections, this`heads
      ensures Valid() && storedSections <= old(storedSections)
      ensures forall i :: i in heads ==> i in old(heads) && heads[i] == old(heads)[i]
      ensures reorg ==> knownSections == Min(old(knownSections), (head + 1) / sectionSize)
      ensures reorg ==> storedSections == Min(old(storedSections), (head + 1) / sectionSize)
      ensures reorg ==> forall i: nat :: i < old(storedSections) ==> (i in heads <==> LastOf(i, sectionSize) <= head)
      ensures !reorg ==> storedSections == old(storedSections) && heads == old(heads)
      ensures !reorg ==>
                knownSections == if head < confirmsReq then old(knownSections)
                                 else Max(old(knownSections), (head + 1 - confirmsReq) / sectionSize)
    {
      hide HeadsOk, JobOk;
      if reorg {
        var known := (head + 1) / sectionSize;
        if known < knownSections {
          knownSections := known;
        }
        if known < storedSections {
          SetValidSections(known);
        }
        KeptHeads(old(storedSections), head, known);
        return;
      }
      if head >= confirmsReq {
        var sections := (head + 1 - confirmsReq) / sectionSize;
        if sections > knownSections {
          knownSections := sections;
        }
      }
    }

    /** A reorg keeps exactly the sections whose last block is not beyond its point. */
    lemma KeptHeads(was: nat, head: nat, known: nat)
      requires Valid() && known == (head + 1) / sectionSize && storedSections == Min(was, known)
      ensures forall i: nat :: i < was ==> (i in heads <==> LastOf(i, sectionSize) <= head)
    {
      hide HeadOk, JobOk, LastOf;
      forall i: nat | i < was ensures i in heads <==> LastOf(i, sectionSize) <= head {
        Whole(head + 1, sectionSize, i);
      }
    }

    /** Sections: with the canonical index of a chain, every section head of the sections returned is on that chain. */
    method Sections(canon: map<nat, Hash>) returns (n: nat, lastNumber: uint64, lastHead: Hash)
      requires Valid()
      modifies this`storedSections, this`heads
      ensures Valid() && n == storedSections && VerifiedDown(old(heads), old(storedSections), canon)
      ensures n > 0 ==>
                forall h, i: nat :: IsCanon(canon, h) && i < n ==>
                  LastOf(i, sectionSize) in canon && heads[i] == canon[LastOf(i, sectionSize)]
      ensures n > 0 && n * sectionSize <= TWO_64 ==> lastNumber == LastOf(n - 1, sectionSize)
      ensures n > 0 ==> lastHead == heads[n - 1]
      ensures n == 0 ==> lastNumber == TWO_64 - 1 && lastHead == Zero
    {
      hide JobOk, HeadOk, LastOf;
      VerifyLastHead(canon);
      n := storedSections;
      LastNumber(n, sectionSize);
      lastNumber := (n * sectionSize - 1) % TWO_64;
      lastHead := if n == 0 then Zero else SectionHead(n - 1);
      if n > 0 {
        forall h, i: nat | IsCanon(canon, h) && i < n
          ensures LastOf(i, sectionSize) in canon && heads[i] == canon[LastOf(i, sectionSize)]
        {
          HeadThere(n - 1);
          LastNonNegative(n - 1, sectionSize);
          AllOnChain(heads, n, sectionSize, canon, h, i);
        }
        LastNonNegative(n - 1, sectionSize);
      }
    }

    lemma HeadThere(i: nat)
      requires Valid() && i < storedSections
      ensures SectionHead(i).Keccak?
    {
      assert HeadOk(heads, i, sectionSize);
    }

    /** updateLoop, under the lock: the next section is taken up if there is one. */
    method Begin(canon: map<nat, Hash>)
      requires Valid() && job.None?
      modifies this`storedSections, this`heads, this`job
      ensures Valid() && storedSections <= old(storedSections)
      ensures job.Some? <==> knownSections > old(storedSections)
      ensures job.None? ==> storedSections == old(storedSections) && heads == old(heads)
      ensures job.Some? ==> VerifiedDown(old(heads), old(storedSections), canon)
      ensures job.Some? ==>
                var head := if storedSections == 0 then Zero else SectionHead(storedSections - 1);
                job.value == Job(storedSections, head, storedSections * sectionSize, head, false)
    {
      hide HeadsOk;
      if knownSections > storedSections {
        VerifyLastHead(canon);
        var section := storedSections;
        var oldHead := Zero;
        if section > 0 {
          oldHead := SectionHead(section - 1);
          LastHeadFacts();
        }
        job := Some(Job(section, oldHead, section * sectionSize, oldHead, false));
      }
    }

    lemma LastHeadFacts()
      requires Valid() && storedSections > 0
      ensures var h := SectionHead(storedSections - 1);
              h.Keccak? && h.header.number == storedSections * sectionSize - 1 && Up(h, 0) == h
    {
      assert HeadOk(heads, storedSections - 1, sectionSize);
    }

    /** processSection, the backend's failure to reset: all sections go, without the lock. */
    method ResetFailed()
      requires Valid() && job.Some? && job.value.number == job.value.section * sectionSize
      modifies this`storedSections, this`heads, this`job
      ensures Valid() && storedSections == 0 && job == Some(old(job).value.(failed := true))
    {
      hide HeadsOk;
      SetValidSections(0);
      job := Some(job.value.(failed := true));
    }

    /** processSection, one block: it must be the canonical one and a child of the last. */
    method ProcessBlock(canon: map<nat, Hash>, stored: set<Header>, backendOk: bool)
      requires Valid() && job.Some? && !job.value.failed && job.value.number < (job.value.section + 1) * sectionSize
      modifies this`job
      ensures Valid() && job.Some? && job.value.section == old(job).value.section
      ensures job.value.oldHead == old(job).value.oldHead
      ensures job.value.failed <==> !backendOk || !Next(canon, stored, old(job).value.number, old(job).value.lastHead)
      ensures if job.value.failed then
                job.value.number == old(job).value.number && job.value.lastHead == old(job).value.lastHead
              else
                job.value.number == old(job).value.number + 1 && job.value.lastHead == canon[old(job).value.number]
    {
      hide HeadsOk;
      var number := job.value.number;
      var hash := ReadCanonicalHash(canon, number);
      var header := GetHeader(stored, hash, number);
      if hash == Zero || header.None? || header.value.parent != job.value.lastHead || !backendOk {
        job := Some(job.value.(failed := true));
        return;
      }
      job := Some(job.value.(number := number + 1, lastHead := Keccak(header.value)));
    }

    /** updateLoop, under the lock again: the section is stored if it was processed and the one before it still has
        the head it had; otherwise it is given up. */
    method Finish(canon: map<nat, Hash>, commitOk: bool)
      requires Valid() && job.Some? && (job.value.failed || job.value.number == (job.value.section + 1) * sectionSize)
      modifies this`storedSections, this`knownSections, this`heads, this`job
      ensures Valid() && job.None?
      ensures var j := old(job).value;
              if !j.failed && commitOk && (j.section == 0 || j.oldHead == old(SectionHead(j.section - 1))) then
                && storedSections == j.section + 1 == old(storedSections) + 1
                && heads == old(heads)[j.section := j.lastHead]
              else VerifiedDown(old(heads), old(storedSections), canon) && knownSections == storedSections
    {
      hide HeadsOk, HeadOk;
      var j := job.value;
      job := None;
      if !j.failed && commitOk && (j.section == 0 || j.oldHead == SectionHead(j.section - 1)) {
        StillThere(j);
        HeadAdded(heads, storedSections, sectionSize, j.lastHead);
        heads := heads[j.section := j.lastHead];
        storedSections := j.section + 1;
      } else {
        VerifyLastHead(canon);
        knownSections := storedSections;
      }
    }

    lemma StillThere(j: Job)
      requires sectionSize > 0 && HeadsOk(heads, storedSections, sectionSize) && JobOk(j, storedSections, sectionSize)
      requires j.section == 0 || j.oldHead == SectionHead(j.section - 1)
      ensures storedSections == j.section
      ensures j.section > 0 ==> j.section - 1 in heads && heads[j.section - 1] == j.oldHead
    {
    }

    /** processSection on one chain that holds the section, with a backend that works: no block fails. */
    method ProcessSection(canon: map<nat, Hash>, stored: set<Header>, ghost genesis: Header, ghost head: Header)
      requires Valid() && job.Some? && !job.value.failed && job.value.number == job.value.section * sectionSize
      requires ParentClosed(stored, genesis) && genesis.parent == Zero && head in stored && IsCanon(canon, head)
      requires LastOf(job.value.section, sectionSize) <= head.number
      requires job.value.lastHead == HashBefore(canon, job.value.number)
      modifies this`job
      ensures Valid() && job.Some? && !job.value.failed && job.value.section == old(job).value.section
      ensures job.value.oldHead == old(job).value.oldHead
      ensures job.value.number == (job.value.section + 1) * sectionSize
      ensures job.value.lastHead == HashBefore(canon, job.value.number)
    {
      hide HeadsOk, JobOk, IsCanon, ParentClosed, Next;
      var first := job.value.number;
      InSection(job.value.section, sectionSize);
      for i := 0 to sectionSize
        invariant Valid() && job.Some? && !job.value.failed && job.value.section == old(job).value.section
        invariant job.value.oldHead == old(job).value.oldHead && job.value.number == first + i
        invariant job.value.lastHead == HashBefore(canon, job.value.number)
      {
        NextOnChain(canon, stored, genesis, head, job.value.number);
        ProcessBlock(canon, stored, true);
      }
    }

    /** Begin, the blocks of the section and Finish, with nothing else in between, a backend that works and one chain
        that holds the section: it is stored, on top of the sections the chain confirms. */
    method ProcessNext(canon: map<nat, Hash>, stored: set<Header>, ghost genesis: Header, ghost head: Header)
      returns (ghost kept: nat)
      requires Valid() && job.None? && knownSections > storedSections
      requires ParentClosed(stored, genesis) && genesis.parent == Zero && head in stored && IsCanon(canon, head)
      requires LastOf(storedSections, sectionSize) <= head.number
      modifies this
      ensures Valid() && job.None? && kept <= old(storedSections) && storedSections == kept + 1
      ensures old(LastConfirmed(canon)) ==> kept == old(storedSections)
      ensures SectionHead(kept) == HashBefore(canon, (kept + 1) * sectionSize)
      ensures forall i: nat :: i < kept ==> SectionHead(i) == old(SectionHead(i))
    {
      hide HeadsOk, JobOk, IsCanon, ParentClosed, HashBefore;
      Begin(canon);
      kept := storedSections;
      BeginFacts(old(heads), old(storedSections), canon);
      EarlierSection(kept, old(storedSections), sectionSize);
      ProcessSection(canon, stored, genesis, head);
      Finish(canon, true);
    }

    /** The last stored section, if there is one, is on the canonical chain. */
    predicate LastConfirmed(canon: map<nat, Hash>)
      reads this
    {
      storedSections == 0 || SectionHead(storedSections - 1) == HashBefore(canon, storedSections * sectionSize)
    }

    lemma BeginFacts(heads0: map<nat, Hash>, stored0: nat, canon: map<nat, Hash>)
      requires Valid() && HeadsOk(heads0, stored0, sectionSize) && VerifiedDown(heads0, stored0, canon)
      ensures (if storedSections == 0 then Zero else SectionHead(storedSections - 1)) ==
              HashBefore(canon, storedSections * sectionSize)
      ensures stored0 > 0 ==> stored0 - 1 in heads0
      ensures stored0 == 0 || heads0[stored0 - 1] == HashBefore(canon, stored0 * sectionSize) ==>
                storedSections == stored0
      ensures forall i: nat :: i < storedSections ==> i in heads0 && SectionHead(i) == heads0[i]
    {
      hide JobOk, HeadOk;
      LastNonNegative(stored0, sectionSize);
      if stored0 > 0 {
        LastNonNegative(stored0 - 1, sectionSize);
      }
    }

    /** Any steps in any order, those that are possible when their turn comes, keep the invariant. */
    method Run(steps: seq<Step>)
      requires Valid()
      modifies this
      ensures Valid()
    {
      hide HeadsOk, JobOk;
      for k := 0 to |steps|
        invariant Valid()
      {
        match steps[k]
        case NewHead(head, reorg) =>
          NewHead(head, reorg);
        case Sections(canon) =>
          var n, lastNumber, lastHead := Sections(canon);
        case Begin(canon) =>
          if job.None? {
            Begin(canon);
          }
        case ResetFailed =>
          if job.Some? && job.value.number == job.value.section * sectionSize {
            ResetFailed();
          }
        case ProcessBlock(canon, stored, backendOk) =>
          if job.Some? && !job.value.failed && job.value.number < (job.value.section + 1) * sectionSize {
            ProcessBlock(canon, stored, backendOk);
          }
        case Finish(canon, commitOk) =>
          if job.Some? && (job.value.failed || job.value.number == (job.value.section + 1) * sectionSize) {
            Finish(canon, commitOk);
          }
      }
    }
  }

  /** The canonical block of a number is stored and a child of the one before. */
  predicate Next(canon: map<nat, Hash>, stored: set<Header>, number: nat, lastHead: Hash) {
    && number in canon && canon[number].Keccak? && canon[number].header in stored
    && canon[number].header.number == number && canon[number].header.parent == lastHead
  }

  /** The canonical hash right below a number; zero below the first. */
  function HashBefore(canon: map<nat, Hash>, number: nat): Hash {
    if number == 0 then Zero else ReadCanonicalHash(canon, number - 1)
  }

  lemma NextOnChain(canon: map<nat, Hash>, stored: set<Header>, genesis: Header, head: Header, number: nat)
    requires ParentClosed(stored, genesis) && genesis.parent == Zero && head in stored && IsCanon(canon, head)
    requires number <= head.number
    ensures Next(canon, stored, number, HashBefore(canon, number)) && canon[number] == HashBefore(canon, number + 1)
  {
    hide ParentClosed, IsCanon;
    CanonLinked(canon, head, stored, genesis, number);
  }

  lemma InSection(section: nat, size: nat)
    ensures section * size + size == (section + 1) * size
  {
  }

  lemma EarlierSection(section: nat, section': nat, size: nat)
    requires section <= section'
    ensures LastOf(section, size) <= LastOf(section', size)
  {
    MulLe(section + 1, section' + 1, size);
  }

  function Max(a: nat, b: nat): nat {
    if a < b then b else a
  }

  /** A section is among the whole ones of n blocks exactly when its last block is. */
  lemma Whole(n: nat, size: nat, i: nat)
    requires size > 0
    ensures i < n / size <==> LastOf(i, size) < n
  {
    if i < n / size {
      MulLe(i + 1, n / size, size);
    } else {
      MulLe(n / size + 1, i + 1, size);
    }
  }

  lemma MulLe(a: nat, b: nat, size: nat)
    requires a <= b
    ensures a * size <= b * size
  {
  }

  lemma JobKept(job: Option<Job>, stored: nat, stored': nat, size: nat)
    requires stored' <= stored
    ensures job.Some? && JobOk(job.value, stored, size) ==> JobOk(job.value, stored', size)
  {
  }

  lemma LastNumber(n: nat, size: nat)
    requires size > 0
    ensures n > 0 && n * size <= TWO_64 ==> (n * size - 1) % TWO_64 == LastOf(n - 1, size)
    ensures n == 0 ==> (n * size - 1) % TWO_64 == TWO_64 - 1
  {
    if n > 0 && n * size <= TWO_64 {
      MulLe(1, n, size);
    }
  }

  lemma LastNonNegative(section: nat, size: nat)
    requires size > 0
    ensures LastOf(section, size) >= section
  {
  }
}
