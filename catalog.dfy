/** The static table of supported currencies: each name has the marketplace
    id used in search queries and a tier, where a lower tier means a more
    valuable currency. */
module Catalog {
  import opened Results

  datatype Currency = Currency(id: nat, tier: nat)

  const CURRENCIES: map<string, Currency> := map[
    "Alteration" := Currency(1, 3),
    "Fusing" := Currency(2, 2),
    "Alchemy" := Currency(3, 2),
    "Chaos" := Currency(4, 2),
    "Gemcutter's Prism" := Currency(5, 2),
    "Exalted" := Currency(6, 1),
    "Chromatic" := Currency(7, 2),
    "Jewellers" := Currency(8, 2),
    "Chance" := Currency(9, 2),
    "Cartographer's Chisel" := Currency(10, 2),
    "Scouring" := Currency(11, 2),
    "Regret" := Currency(13, 2),
    "Regal" := Currency(14, 2),
    "Divine" := Currency(15, 2),
    "Vaal" := Currency(16, 2),
    "Transmutation" := Currency(22, 3),
    "Augmentation" := Currency(23, 3)
  ]

  /** Indexing the table: a name that is not in it is a KeyError. */
  function Lookup(name: string): (r: Result<Currency>)
    ensures r.Ok? <==> name in CURRENCIES
    ensures r.Ok? ==> r.value == CURRENCIES[name]
    ensures r.Err? ==> r.error == UnknownCurrency(name)
  {
    if name in CURRENCIES then Ok(CURRENCIES[name]) else Err(UnknownCurrency(name))
  }

  /** The documented tier setup: every tier is 1, 2 or 3. */
  lemma TiersInRange()
    ensures forall name | name in CURRENCIES :: 1 <= CURRENCIES[name].tier <= 3
  {
  }

  /** No two currencies share a marketplace id, so a query names one pair. */
  lemma IdsDistinct()
    ensures forall a, b | a in CURRENCIES && b in CURRENCIES && a != b ::
      CURRENCIES[a].id != CURRENCIES[b].id
  {
  }
}
