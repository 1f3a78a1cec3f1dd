/** Buffers between two inaccessible pages (secbuf.c): a single byte past the end ends the process. */
module SecBuf {
  import opened Strings

  const UINT_RANGE: nat := 0x1_0000_0000

  // ---------------------------------------------------------------- the arithmetic

  /** The size in whole pages. */
  function RoundUp(size: nat, page: nat): nat
    requires page > 0
  {
    if size % page != 0 then (size / page + 1) * page else size
  }

  /** The length mapped, in unsigned 32-bit arithmetic. */
  function MapSize(size: nat, page: nat): nat
    requires page > 0
  {
    Wrapped(RoundUp(size, page) + 2 * page)
  }

  /** A value in an unsigned int. */
  function Wrapped(v: nat): (w: nat)
    ensures v < UINT_RANGE ==> w == v
    ensures w < UINT_RANGE
  {
    v % UINT_RANGE
  }

  predicate Fits(size: nat, page: nat)
    requires page > 0
  {
    RoundUp(size, page) + 2 * page < UINT_RANGE
  }

  /** The buffer handed out for a mapping. */
  function BufferOf(base: nat, size: nat, page: nat): nat
    requires page > 0
  {
    base + page + if size % page != 0 then page - size % page else 0
  }

  /** The mapping vsf_secbuf_free works out from the buffer alone. */
  function BaseOf(p: nat, page: nat): int
    requires page > 0
  {
    p - p % page - page
  }

  lemma SizeInPages(size: nat, page: nat)
    requires page > 0
    ensures size == size / page * page + size % page
    ensures RoundUp(size, page) % page == 0 && size <= RoundUp(size, page) < size + page
    ensures BufferOf(0, size, page) + size == page + RoundUp(size, page)
  {
    var q, s := size / page, size % page;
    assert (q + 1) * page == q * page + page;
    MultipleOfPage(q, page);
    MultipleOfPage(q + 1, page);
  }

  lemma {:induction false} MultipleOfPage(k: nat, page: nat)
    requires page > 0
    ensures k * page % page == 0 && k * page / page == k
  {
    if k > 0 {
      MultipleOfPage(k - 1, page);
      assert k * page == (k - 1) * page + page;
      OnePageMore((k - 1) * page, page);
    }
  }

  lemma OnePageMore(a: nat, page: nat)
    requires page > 0
    ensures (a + page) % page == a % page && (a + page) / page == a / page + 1
  {
    var q, s := a / page, a % page;
    assert a + page == (q + 1) * page + s;
    QuotientUnique(a + page, q + 1, s, page);
  }

  lemma QuotientUnique(a: nat, q: nat, s: nat, page: nat)
    requires page > 0 && a == q * page + s && s < page
    ensures a / page == q && a % page == s
  {
    var q', s' := a / page, a % page;
    assert a == q' * page + s';
    Compare(q + 1, q', page);
    Compare(q' + 1, q, page);
    assert (q + 1) * page == q * page + page && (q' + 1) * page == q' * page + page;
  }

  lemma Compare(a: nat, b: nat, page: nat)
    ensures a <= b ==> a * page <= b * page
  {
  }

  /** The end of the buffer is the first byte of the last page exactly when the length fits an unsigned int. */
  lemma {:induction false} EndsAtGuardExactly(base: nat, size: nat, page: nat)
    requires page > 0
    ensures BufferOf(base, size, page) + size == base + MapSize(size, page) - page <==> Fits(size, page)
    ensures base + page <= BufferOf(base, size, page)
  {
    SizeInPages(size, page);
    var whole := RoundUp(size, page) + 2 * page;
    hide RoundUp;
    assert BufferOf(base, size, page) == base + BufferOf(0, size, page);
    hide BufferOf;
    assert whole < UINT_RANGE <==> Wrapped(whole) == whole;
  }

  /** From the buffer alone, its mapping is found. */
  lemma {:induction false} BaseRecovered(base: nat, size: nat, page: nat)
    requires page > 0 && base % page == 0
    ensures BaseOf(BufferOf(base, size, page), page) == base
  {
    var s := size % page;
    var q := base / page;
    assert base == q * page;
    assert (q + 1) * page == base + page;
    QuotientUnique(BufferOf(base, size, page), q + 1, if s != 0 then page - s else 0, page);
  }

  // ---------------------------------------------------------------- memory

  datatype Prot = ReadWrite | ReadOnly | NoAccess

  /** A mapping: the protection of its pages, in order, and the word at its start. */
  datatype Mapping = Mapping(pages: seq<Prot>, word: nat)

  function Open(count: nat): (pages: seq<Prot>)
    ensures |pages| == count && forall i | 0 <= i < count :: pages[i] == ReadWrite
  {
    if count == 0 then [] else Open(count - 1) + [ReadWrite]
  }

  /** The mapping as vsf_secbuf_alloc leaves it: guards at both ends, its own length in the first word. */
  predicate Guarded(m: Mapping, page: nat) {
    && |m.pages| >= 2 && m.pages[0] == NoAccess && m.pages[|m.pages| - 1] == NoAccess
    && (forall i | 0 < i < |m.pages| - 1 :: m.pages[i] == ReadWrite)
    && m.word == |m.pages| * page
  }

  /** Anonymous mappings by their first address. */
  class Memory {
    const page: nat
    var mappings: map<nat, Mapping>
    var refusals: nat

    predicate Valid()
      reads this
    {
      page > 0 && forall base | base in mappings :: base > 0 && base % page == 0
    }

    /** A buffer of that size, between guard pages of a mapping of its own. */
    predicate Live(p: nat, size: nat)
      reads this
      requires page > 0
    {
      var base := BaseOf(p, page);
      && base in mappings && Guarded(mappings[base], page)
      && p == BufferOf(base, size, page)
      && p + size == base + (|mappings[base].pages| - 1) * page
    }

    constructor (page: nat)
      requires page > 0
      ensures Valid() && this.page == page && mappings == map[]
    {
      this.page := page;
      mappings, refusals := map[], 0;
    }

    /** vsf_sysutil_map_anon_pages of whole pages: None for die(), when the system refuses. */
    method MapAnonPages(count: nat) returns (base: Option<nat>)
      requires Valid()
      modifies `mappings, `refusals
      ensures Valid()
      ensures base.None? <==> refusals > old(refusals)
      ensures base.None? ==> mappings == old(mappings)
      ensures base.Some? ==>
        base.value !in old(mappings) && mappings == old(mappings)[base.value := Mapping(Open(count), 0)]
    {
      var found: nat := *;
      if found == 0 || found % page != 0 || found in mappings || count == 0 {
        refusals := refusals + 1;
        return None;
      }
      mappings := mappings[found := Mapping(Open(count), 0)];
      return Some(found);
    }

    /** vsf_sysutil_memprotect of the page at an address of a mapping */
    method Protect(base: nat, addr: nat, prot: Prot)
      requires Valid() && base in mappings && base <= addr && addr % page == 0
      requires (addr - base) / page < |mappings[base].pages|
      modifies `mappings
      ensures Valid() && old(base in mappings && 0 <= (addr - base) / page < |mappings[base].pages|)
      ensures mappings ==
        old(mappings[base := mappings[base].(pages := mappings[base].pages[(addr - base) / page := prot])])
    {
      var m := mappings[base];
      mappings := mappings[base := m.(pages := m.pages[(addr - base) / page := prot])];
    }

    /** Storing into the first page, which must be writable. */
    method Store(base: nat, word: nat)
      requires Valid() && base in mappings && mappings[base].pages != [] && mappings[base].pages[0] == ReadWrite
      modifies `mappings
      ensures Valid() && base in old(mappings)
      ensures mappings == old(mappings[base := mappings[base].(word := word)])
    {
      mappings := mappings[base := mappings[base].(word := word)];
    }

    /** Reading the first word, in a page that must be readable. */
    method Load(base: nat) returns (word: nat)
      requires base in mappings && mappings[base].pages != [] && mappings[base].pages[0] != NoAccess
      ensures word == mappings[base].word
    {
      word := mappings[base].word;
    }

    /** vsf_sysutil_memunmap: the length must be that of the mapping. */
    method Unmap(base: nat, length: nat)
      requires Valid() && base in mappings && length == |mappings[base].pages| * page
      modifies `mappings
      ensures Valid() && mappings == old(mappings) - {base}
    {
      mappings := mappings - {base};
    }

    /** vsf_secbuf_free: unmaps exactly what was mapped for the buffer, and nothing else; 0 is no buffer. */
    method Free(p: nat, ghost size: nat)
      requires Valid() && (p != 0 ==> Live(p, size))
      modifies `mappings
      ensures Valid()
      ensures mappings == old(mappings) - if p == 0 then {} else {BaseOf(p, page)}
    {
      if p == 0 {
        return;
      }
      var base := p;
      var pageOffset := p % page;
      if pageOffset != 0 {
        base := base - pageOffset;
      }
      assert base - page == BaseOf(p, page);
      base := base - page;
      ghost var m := mappings[base];
      ZeroIndex(page);
      Protect(base, base, ReadOnly);
      var mapSize := Load(base);
      Unmap(base, mapSize);
    }

    /** What is left after a previous buffer, if any, is freed. */
    function Without(previous: nat): map<nat, Mapping>
      requires page > 0
      reads this
    {
      mappings - if previous == 0 then {} else {BaseOf(previous, page)}
    }

    /**
     * vsf_secbuf_alloc: a previous buffer is freed; the new one ends where the trailing guard page begins, and every
     * other mapping stays as it is. None for die(), when the system refuses the mapping.
     */
    method Alloc(previous: nat, ghost previousSize: nat, size: nat) returns (p: Option<nat>)
      requires Valid() && (previous != 0 ==> Live(previous, previousSize)) && Fits(size, page)
      modifies `mappings, `refusals
      ensures Valid()
      ensures p.None? <==> refusals > old(refusals)
      ensures p.Some? ==> p.value != 0 && Live(p.value, size) && BaseOf(p.value, page) !in old(Without(previous))
      ensures mappings - (if p.Some? then {BaseOf(p.value, page)} else {}) == old(Without(previous))
    {
      Free(previous, previousSize);
      var roundUp := MappedLength(size);
      ghost var count := WholePages(size, page);
      MultipleOfPage(count, page);
      var mapped := MapAnonPages(roundUp / page);
      if mapped.None? {
        return None;
      }
      var base := mapped.value;
      InstallGuards(base, roundUp, count);
      var q := base + page;
      if size % page != 0 {
        q := q + (page - size % page);
      }
      BaseRecovered(base, size, page);
      SizeInPages(size, page);
      assert (count - 1) * page == count * page - page;
      hide RoundUp, MapSize, Open;
      p := Some(q);
    }

    /** The length of the mapping for a buffer, in the unsigned arithmetic of the original. */
    method MappedLength(size: nat) returns (roundUp: nat)
      requires page > 0 && Fits(size, page)
      ensures roundUp == MapSize(size, page)
    {
      var pageOffset := size % page;
      roundUp := size;
      if pageOffset != 0 {
        var numPages := size / page;
        numPages := numPages + 1;
        roundUp := numPages * page;
        assert roundUp == RoundUp(size, page);
        roundUp := Wrapped(roundUp);
      }
      assert roundUp == RoundUp(size, page);
      hide RoundUp, Wrapped;
      roundUp := Wrapped(roundUp + page * 2);
    }

    /** The last page is closed, the length noted in the first, and then the first is closed. */
    method InstallGuards(base: nat, roundUp: nat, ghost count: nat)
      requires Valid() && base in mappings && mappings[base].pages == Open(count)
      requires count >= 2 && roundUp == count * page
      modifies `mappings
      ensures Valid() && base in mappings && |mappings[base].pages| == count && Guarded(mappings[base], page)
      ensures mappings - {base} == old(mappings) - {base}
    {
      MultipleOfPage(count - 1, page);
      ZeroIndex(page);
      assert roundUp - page == (count - 1) * page;
      LastPage(base, count, page);
      Protect(base, base + roundUp - page, NoAccess);
      Store(base, roundUp);
      Protect(base, base, NoAccess);
    }
  }

  lemma LastPage(base: nat, count: nat, page: nat)
    requires page > 0 && base % page == 0 && count > 0
    ensures (base + (count - 1) * page) % page == 0
  {
    assert base == base / page * page;
    assert (base / page + (count - 1)) * page == base / page * page + (count - 1) * page;
    MultipleOfPage(base / page + (count - 1), page);
  }

  /** The number of pages mapped for a buffer. */
  lemma WholePages(size: nat, page: nat) returns (count: nat)
    requires page > 0 && Fits(size, page)
    ensures count >= 2 && count * page == RoundUp(size, page) + 2 * page == MapSize(size, page)
  {
    SizeInPages(size, page);
    hide RoundUp;
    var whole := RoundUp(size, page);
    var pages := whole / page;
    assert whole == pages * page;
    count := pages + 2;
    assert count * page == pages * page + 2 * page;
  }

  lemma ZeroIndex(page: nat)
    requires page > 0
    ensures 0 / page == 0
  {
  }
}