# Specify 7 workbench: a Dafny model

This project models the core of the Specify 7 workbench. That covers the
plan editor of the browser front end, a few rules of the Python uploader,
and the bookkeeping of the spreadsheet view. It proves properties of each
part.

- **Mapping trees** (`TreeHelper`). A mapping path is a list of tokens:
  tables, relationships, fields, `#n` reference items, `$Rank` tree ranks,
  then the mapping type, the header and its options.
  - The model builds paths into the nested mapping tree by deep merging,
    flattens trees back into paths, and takes cross-sections.
  - Headerless paths build a trie.
  - Prefix-free full paths survive building and flattening as a multiset.
- **Upload-plan converter** (`Converter`). It converts the persisted upload
  plan to a mapping tree and back.
  - The must-match preferences are threaded through every call and
    returned.
  - A plan written out is read back by `uploadPlanStringToObject`.
  - A plan that uploads one non-tree table from plain columns survives the
    round trip. Each column is a distinct known field that is not a
    relationship, mapped to an existing header by bare name, and the
    `static`, `toOne` and `toMany` groups are empty.
- **Schema navigator** (`Navigator`, `MappingLineData`). It walks the data
  model along a mapping path and classifies each step's children as
  reference items, tree ranks or plain fields. It runs exactly one handler
  per step and collects one line-data entry per step. The pre-hook's
  tree-rank rewrite is modelled as written, beside the corrected one (see
  "## Findings").
- **Plan-editor state** (`Mapper`). Covers path completeness, the tree of
  the complete lines, de-duplication, `mutate_mapping_path`, and the lines
  built from headers and from a plan. With the shown converter, a plan of
  column mappings restores no mapped line (see "## Left out").
- **Path helpers** (`PathHelper`). Covers the divergence point of two
  paths, deconstructing a path, duplicate detection and friendly names.
- **Uploader rules**:
  - `ColumnOptions`: column options to JSON;
  - `TreeRecords`: the tree-record plan, match preparation and row
    classification, with the database query as an oracle;
  - `Parsing`: cell-value parsing;
  - `Upload`: `caption_to_index`;
  - `Views`: shell quoting, column permutation and header-row drop;
  - `CollectorRules`: the collector order-number rule.
- **Spreadsheet view** (`CellInfos`, `CellNavigation`, `CellTable`, `Fill`,
  `CreatedRows`).
  - The per-cell record array (`cellInfo`, indexed `row * cols + col`,
    with holes).
  - Reading a row's validation result, and the panel totals.
  - Next/previous navigation, search and replace.
  - The fill-down and fill-up change lists and their context-menu items.
  - Fixing inserted rows.

Supporting modules model the host languages:
- `JsValue`: JavaScript values, with objects as ordered property lists;
- `Json`: JSON documents;
- `JsString`: `split`, `join`, `padStart` and number text;
- `PyString`: Python `strip`, `lower`, `capitalize`, `replace`;
- `SparseArray`: JavaScript arrays with holes.

Assumptions and simplifications:
- **Oracles.** The data model (`dataModelStorage`), the model helpers
  (`valueIsReferenceItem`, `formatTreeRank`, …), `defaultLineOptions`, the
  automapper and the tree-record database query are parameters: an
  abstract schema record, uninterpreted functions and oracle values.
- **Version skew.** The shown files come from different revisions. The
  converter imports `getMappingLineData` and the mapper imports
  snake_case tree helpers. The model connects them to the shown
  `get_mapping_line_data_from_mapping_path` and the camelCase
  `TreeHelper` functions.
- **Exceptions.** Each exception the source throws is an error outcome of
  the model (`Threw`, `TypeError`, `RangeError`, a `Raised` outcome).
- **State.** The source's in-place updates are class fields and method
  `modifies` clauses where the state is an object's field:
  - `cellInfo` and `search_query` of the views;
  - `this.data`;
  - the navigator's builder state;
  - the collector being saved;
  - the tree-record table.

  Elsewhere they are values passed along and returned.

## Model

| member | source | states |
|---|---|---|
| TreeHelper.DeepMergeObject | specifyweb/frontend/js_src/lib/wbplanviewtreehelper.ts:117-131 | the reduce over the source's entries computes `Merge`: a non-object source leaves the target as it is, a key the target lacks takes the source value, a key it has is merged recursively, a null or primitive target with entries to write throws |
| TreeHelper.MergeLookup | specifyweb/frontend/js_src/lib/wbplanviewtreehelper.ts:118-128 | after a merge, a key the source lacks keeps the target's value, a key only the source has takes the source's value, and a key in both holds the merge of the two values, so a scalar already in the target is never overwritten |
| TreeHelper.ArrayOfMappingsToMappingsTree | specifyweb/frontend/js_src/lib/wbplanviewtreehelper.ts:214-220 | the loop starts from a fresh `{}` and merges `arrayToTree` of every path in order, giving `Build` |
| TreeHelper.MappingsTreeToArrayOfMappings | specifyweb/frontend/js_src/lib/wbplanviewtreehelper.ts:247-270 | the reduce computes `FlattenProps`: an entry whose value is an object with an object first value is descended into, any other entry ends the path `[...path, key, value]`, and a null value throws |
| TreeHelper.FlattenPropsShaped | specifyweb/frontend/js_src/lib/wbplanviewtreehelper.ts:251-266 | every flattened path has at least a key and a node, and every element before the node is a key |
| TreeHelper.ChainReaches | specifyweb/frontend/js_src/lib/wbplanviewtreehelper.ts:177-185 | `arrayToTree` without headers is a chain of objects that reaches exactly the prefixes of the path |
| TreeHelper.TraverseTree | specifyweb/frontend/js_src/lib/wbplanviewtreehelper.ts:66-87 | an absent probe gives the whole tree; whatever is found is the tree itself or one of its sub-trees |
| TreeHelper.Cross | specifyweb/frontend/js_src/lib/wbplanviewtreehelper.ts:69-87 | whatever the cross-section finds is the tree itself or one of its sub-trees; the cases of ts:69-87 are stated by `TraverseTrie` |
| TreeHelper.ArrayToTree | specifyweb/frontend/js_src/lib/wbplanviewtreehelper.ts:177-185 | the tree is a chain of single-key objects keyed by the path's elements in order, ending in `{}`, or with headers in the path's last element itself |
| TreeHelper.MergeSingle | specifyweb/frontend/js_src/lib/wbplanviewtreehelper.ts:118-128 | merging a one-key object adopts the value when the key is new and merges into the existing value otherwise |
| TreeHelper.TrieInsert | specifyweb/frontend/js_src/lib/wbplanviewtreehelper.ts:216-218 | merging one headerless path into a trie never throws and adds exactly the prefixes of that path |
| TreeHelper.TrieBuild | specifyweb/frontend/js_src/lib/wbplanviewtreehelper.ts:214-220 | building from headerless paths gives a trie whose reachable key sequences are exactly the prefixes of the paths |
| TreeHelper.TraverseTrie | specifyweb/frontend/js_src/lib/wbplanviewtreehelper.ts:66-87 | probing a trie with the chain of a path that has no empty key finds the node the path leads to, or `false` once the path leaves the trie |
| TreeHelper.NodeKeys | specifyweb/frontend/js_src/lib/wbplanviewtreehelper.ts:214-220 | the keys of the node a path leads to are exactly the one-step extensions of that path |
| TreeHelper.ChainFlattens | specifyweb/frontend/js_src/lib/wbplanviewtreehelper.ts:177-185 | a full path with its header is built into a chain whose flattening is that path again |
| TreeHelper.FlattenAppend | specifyweb/frontend/js_src/lib/wbplanviewtreehelper.ts:247-270 | the flattening of two runs of entries is the flattening of the first followed by that of the second |
| TreeHelper.MergeChain | specifyweb/frontend/js_src/lib/wbplanviewtreehelper.ts:216-218 | merging a full path whose tokens do not collide with the tree adds exactly that path to the tree's flattening |
| TreeHelper.BuildFlattens | specifyweb/frontend/js_src/lib/wbplanviewtreehelper.ts:214-220 | merging prefix-free full paths in order adds each of them to the flattening |
| TreeHelper.RoundTrip | specifyweb/frontend/js_src/lib/wbplanviewtreehelper.ts:189-192 | full paths whose tokens are prefix-free, built into a tree and flattened again, give back the same paths as a multiset (the documented inverse pair) |
| TreeHelper.SameTokensKeepFirst | specifyweb/frontend/js_src/lib/wbplanviewtreehelper.ts:120-126 | of two full paths with the same tokens only the first survives a build and flatten, because the target's value wins |
| Converter.WbColsEntry | specifyweb/frontend/js_src/lib/wbplanviewconverter.ts:118-139 | a column mapping throws exactly when it is null, or when there are default options and it is neither a string nor an object; otherwise it becomes one `existingHeader` entry when the column is one of the headers, else `newColumn`, carrying the defaults for a bare string and the known options otherwise |
| Converter.WbCols | specifyweb/frontend/js_src/lib/wbplanviewconverter.ts:118-139 | every entry of a `wbcols` group is converted in order, and the group fails exactly when one of its entries throws |
| Converter.StaticEntries | specifyweb/frontend/js_src/lib/wbplanviewconverter.ts:140-143 | each static value becomes `{newStaticColumn: value}` under its own key |
| Converter.MarkMustMatch | specifyweb/frontend/js_src/lib/wbplanviewconverter.ts:224-232 | a node that is not must-match leaves the preferences alone; a must-match one sets its resolved table to `true`, or fails when the table cannot be resolved |
| Converter.RankEntry | specifyweb/frontend/js_src/lib/wbplanviewconverter.ts:178-188 | a rank is written under `formatTreeRank(rankName)`, and a bare header string stands for `{name: header}` |
| Converter.RankEntries | specifyweb/frontend/js_src/lib/wbplanviewconverter.ts:190-215 | every rank of a tree record is converted in order, keeping their number |
| Converter.TreeRecord | specifyweb/frontend/js_src/lib/wbplanviewconverter.ts:190-215 | a converted tree record is an object of its ranks |
| Converter.Uploadable | specifyweb/frontend/js_src/lib/wbplanviewconverter.ts:299-317 | an uploadable converts to an object and only adds `true` must-match preferences; `treeRecord` and `mustMatchTreeRecord` go to the tree handler, anything else to the upload-table handler |
| Converter.TableTable | specifyweb/frontend/js_src/lib/wbplanviewconverter.ts:242-271 | an upload table converts to one object holding the entries of all its groups in order, and only adds `true` preferences |
| Converter.TableGroups | specifyweb/frontend/js_src/lib/wbplanviewconverter.ts:255-270 | the groups are converted in order, threading the preferences, and any group's exception ends the conversion |
| Converter.Group | specifyweb/frontend/js_src/lib/wbplanviewconverter.ts:255-270 | a group whose name has no processing function throws; `wbcols` and `static` leave the preferences unchanged; every group only adds `true` preferences |
| Converter.ToOneEntries | specifyweb/frontend/js_src/lib/wbplanviewconverter.ts:144-154 | the to-one relationships keep their keys, one path element deeper |
| Converter.ToManyEntries | specifyweb/frontend/js_src/lib/wbplanviewconverter.ts:155-174 | the to-many relationships keep their keys |
| Converter.ReferenceItems | specifyweb/frontend/js_src/lib/wbplanviewconverter.ts:160-172 | the i-th plan of a to-many list is written under `formatReferenceItem(index + i + 1)`, keeping the list's length |
| Converter.ToManyNumbering | specifyweb/frontend/js_src/lib/wbplanviewconverter.ts:155-174 | with distinct reference-item names the plans of a to-many list are numbered `#1..#K` in list order, so none overwrites another |
| Converter.UploadPlanToMappingsTree | specifyweb/frontend/js_src/lib/wbplanviewconverter.ts:323-348 | a plan without `baseTableName` throws; otherwise the base table is read from the plan, the tree is an object and every must-match preference is `true` |
| Converter.ExcludeUnknownKeepsDefaults | specifyweb/frontend/js_src/lib/wbplanviewconverter.ts:95-107 | the kept options are exactly those of `defaultLineOptions`, in their order, each the given value when present and the default otherwise; a non-object throws only when there are defaults |
| Converter.ExcludeUnknown | specifyweb/frontend/js_src/lib/wbplanviewconverter.ts:95-107 | throws exactly when there are default options and the given options are not an object; otherwise gives an object, empty when no options were given |
| Converter.ResolveTableAtPathEnd | specifyweb/frontend/js_src/lib/wbplanviewconverter.ts:224-231 | the table a must-match node is recorded under is the one resolved at the last element of its path |
| Converter.HeaderField | specifyweb/frontend/js_src/lib/wbplanviewconverter.ts:554-568 | a header is written as its bare name exactly when its options equal the defaults, and otherwise as the defaults with the column and the options written over them |
| Converter.Extract | specifyweb/frontend/js_src/lib/wbplanviewconverter.ts:554-568 | the header name is taken from the first header under the first mapping type; a type without headers gives `undefined` |
| Converter.RankFields | specifyweb/frontend/js_src/lib/wbplanviewconverter.ts:570-581 | the rank fields keep their keys when turned into a tree record's ranks |
| Converter.TreeRanks | specifyweb/frontend/js_src/lib/wbplanviewconverter.ts:583-597 | every rank of a written tree record is `{treeNodeCols: ...}` under its bare rank name, never a bare header |
| Converter.TreeRecordPlan | specifyweb/frontend/js_src/lib/wbplanviewconverter.ts:612-625 | a tree table is written as a one-key object, `mustMatchTreeRecord` exactly when the table is in the must-match preferences and `treeRecord` otherwise |
| Converter.Wrap | specifyweb/frontend/js_src/lib/wbplanviewconverter.ts:494-506 | a list of to-many plans, an unwrapped call or a table whose first key is a reference item is written as it is; otherwise the groups are wrapped as `uploadTable` or `mustMatchTable` |
| Converter.PlanTable | specifyweb/frontend/js_src/lib/wbplanviewconverter.ts:386-399 | a tree table is written by the tree-record form |
| Converter.Step | specifyweb/frontend/js_src/lib/wbplanviewconverter.ts:417-491 | a reference item appends a to-many plan to the list it starts or extends, a tree rank makes the call recurse on its own arguments until the stack overflows, and a field the data model does not know is dropped |
| Converter.Relationship | specifyweb/frontend/js_src/lib/wbplanviewconverter.ts:510-551 | a relationship without a related table throws, and otherwise keeps the plan a list exactly when it was one |
| Converter.MappingsTreeToUploadPlan | specifyweb/frontend/js_src/lib/wbplanviewconverter.ts:638-652 | the plan is written exactly when its upload table is, as `{baseTableName, uploadable}` with `baseTableName` first |
| Converter.UploadTable | specifyweb/frontend/js_src/lib/wbplanviewconverter.ts:606-632 | a tree table is written as one `mustMatchTreeRecord` member when the table has a must-match preference, and as one `treeRecord` member otherwise; a non-tree table whose tree is `null` throws |
| Converter.UploadPlanStringToObject | specifyweb/frontend/js_src/lib/wbplanviewconverter.ts:350-377 | a `SyntaxError`, a non-object document or one without `baseTableName` gives `false`; any other exception is passed on; a plan is returned as parsed |
| Converter.WrittenPlanIsRead | specifyweb/frontend/js_src/lib/wbplanviewconverter.ts:638-652 | a plan written by `mappingsTreeToUploadPlan` and parsed again is read back by `uploadPlanStringToObject` as that same plan |
| Converter.ArrayPlanRefused | specifyweb/frontend/js_src/lib/wbplanviewconverter.ts:362-375 | a parsed array has no `baseTableName` and is refused |
| Converter.ColumnsToTree | specifyweb/frontend/js_src/lib/wbplanviewconverter.ts:323-348 | a plan whose upload table maps existing headers to known plain fields becomes `{field: {existingHeader: {header: defaults}}}` with no must-match preferences |
| Converter.ColumnsBack | specifyweb/frontend/js_src/lib/wbplanviewconverter.ts:606-652 | the mapping tree of such columns is written back as the plan of those columns |
| Converter.ColumnsRoundTrip | specifyweb/frontend/js_src/lib/wbplanviewconverter.ts:319-322 | converting a column-only plan to a mapping tree and back writes the plan that was read |
| Navigator.RankOf | specifyweb/frontend/js_src/lib/wbplanviewnavigator.ts:424-429 | an element counts as a rank of a tree table exactly when the table's ranks include it, and is then replaced by its formatted rank name; a tree table missing from the ranks throws a `TypeError` |
| Navigator.GetNextPathElement | specifyweb/frontend/js_src/lib/wbplanviewnavigator.ts:412-443 | each call advances the position by one and reports nothing exactly when the new position is past the path's end; the path keeps its length and the committed data is untouched |
| Navigator.FindNextNavigationDirection | specifyweb/frontend/js_src/lib/wbplanviewnavigator.ts:94-138 | the walk finishes exactly at the end of the path; a reference item or a tree rank stays in the same table and parent, a relationship moves into its table with the current table as parent, and anything else stops with the empty table name |
| Navigator.PreRewrite | specifyweb/frontend/js_src/lib/wbplanviewnavigator.ts:462-467 | the corrected pre-hook rewrite puts the formatted rank at the next element, the one it read, and leaves every other element alone |
| Navigator.PreRewriteAsWritten | specifyweb/frontend/js_src/lib/wbplanviewnavigator.ts:466 | the pre-hook as written stores the formatted rank at the current position; at position -1 the array's elements stay unchanged |
| Navigator.PreNext | specifyweb/frontend/js_src/lib/wbplanviewnavigator.ts:457-468 | with no next element the default value is `'0'` and the array is untouched; otherwise the default value is the next element as the pre-hook reads it; the path keeps its length |
| Navigator.PreRewriteAsWrittenLosesRelationship | specifyweb/frontend/js_src/lib/wbplanviewnavigator.ts:464-467 | for Determination and `["taxon", "Family", "name"]` the rewrite as written replaces `taxon` with `$Family`, while the intended rewrite gives `["taxon", "$Family", "name"]` |
| Navigator.StepAsWrittenDiverges | specifyweb/frontend/js_src/lib/wbplanviewnavigator.ts:424-466 | on the same input, a whole step as written reads `$Family` as the current part, leaves the caller's path `["$Family", "$Family", "name"]` and makes the next step look up `$Family` among Determination's fields, finding no relationship type; the corrected step keeps `taxon` and its relationship type |
| Navigator.PreRewriteMatchesAdvance | specifyweb/frontend/js_src/lib/wbplanviewnavigator.ts:445-476 | the intended rewrite agrees with the one `get_next_path_element` makes when the walk advances to that element, so the pre-hook's rewrite leaves no trace after the step |
| Navigator.NavigatorInstancePre | specifyweb/frontend/js_src/lib/wbplanviewnavigator.ts:445-476 | the pre-hook resets the subtype to `simple` and the fields to none, reads the mapped fields of the path up to the current position, takes the next element (formatted when it is a rank of the tree table) as the default value, `'0'` when there is none, and rewrites the path as `PreNext` does under the chosen rewrite; the current part is read back from the rewritten path |
| Navigator.RankEntries | specifyweb/frontend/js_src/lib/wbplanviewnavigator.ts:517-530 | the tree-rank entries follow the ranks in order, one per rank |
| Navigator.HandleToManyChildren | specifyweb/frontend/js_src/lib/wbplanviewnavigator.ts:478-510 | the step becomes a `to_many` select and the next element joins the mapped fields; only the subtype, the mapped fields and the field list change (the list is stated by `ToManyChildrenFields`) |
| Navigator.HandleTreeRanks | specifyweb/frontend/js_src/lib/wbplanviewnavigator.ts:512-532 | throws exactly for a table without ranks; otherwise the step becomes a `tree` select and only its field list changes (stated by `TreeRankFields`) |
| Navigator.HandleSimpleFields | specifyweb/frontend/js_src/lib/wbplanviewnavigator.ts:534-593 | throws exactly for a table the data model lacks; otherwise only the field list changes (the offered fields are stated by `SimpleFieldsOffered`) |
| Navigator.GetInstanceData | specifyweb/frontend/js_src/lib/wbplanviewnavigator.ts:595-618 | throws exactly for a table the data model lacks; otherwise the select of this step, bound to position+1, with the handler's fields, subtype and open state and the table's friendly name |
| Navigator.CommitInstanceData | specifyweb/frontend/js_src/lib/wbplanviewnavigator.ts:620-625 | the select is appended after the earlier ones and nothing else changes |
| Navigator.GetNavigationChildrenTypes | specifyweb/frontend/js_src/lib/wbplanviewnavigator.ts:237-256 | the parent type is the type of the parent table's field the step came through, and none for an unknown parent table; children are to-many items iff that type is to-many and the element is not a reference item, and ranks iff the table is a tree not reached through a rank |
| Navigator.NavigatorInstance | specifyweb/frontend/js_src/lib/wbplanviewnavigator.ts:274-326 | children that are both to-many and ranks throw; otherwise the step appends exactly one line-data entry for its table and select index, whose subtype names the one handler that ran |
| Navigator.Walk | specifyweb/frontend/js_src/lib/wbplanviewnavigator.ts:141-235 | the walk keeps the mapping path's length; it is run with the pre-hook as written by `GetMappingLineData`, and what it commits is stated by the walk lemmas below, which hold for either rewrite |
| Navigator.Navigate | specifyweb/frontend/js_src/lib/wbplanviewnavigator.ts:167-171 | the top-level navigator throws without a base table |
| Navigator.GetMappingLineData | specifyweb/frontend/js_src/lib/wbplanviewnavigator.ts:332-638 | the line data and the caller's mapping path after a top-level walk with the pre-hook as written; the path keeps its length |
| Navigator.LineDataPerStep | specifyweb/frontend/js_src/lib/wbplanviewnavigator.ts:332-638 | with `iterate` and `generate_last_relationship_data` the result has one entry per select, the k-th for select k and the first in the base table; without `iterate` it has at most the one entry for the select after the last path element |
| Navigator.MappingPathAfterCall | specifyweb/frontend/js_src/lib/wbplanviewnavigator.ts:424-466 | after the call each element of the caller's path is its original, its formatted rank, or the formatted rank of the element after it, the last being the rewrite at ts:466 |
| Navigator.WalkRewritesAsWritten | specifyweb/frontend/js_src/lib/wbplanviewnavigator.ts:141-235 | a walk as written keeps the caller's array within those three rewrites of each element |
| Navigator.StepRewritesAsWritten | specifyweb/frontend/js_src/lib/wbplanviewnavigator.ts:445-476 | one step as written writes only at its own position, the formatted rank of the next element |
| Navigator.AdvanceRewritesAsWritten | specifyweb/frontend/js_src/lib/wbplanviewnavigator.ts:424-429 | advancing formats at most the element it reaches, which no earlier step touched |
| Navigator.WalkReturnsCommitted | specifyweb/frontend/js_src/lib/wbplanviewnavigator.ts:205-233 | what a walk returns is the committed line data itself, the walk only appends to it, and it advances the path position |
| Navigator.WalkCommitsEveryStep | specifyweb/frontend/js_src/lib/wbplanviewnavigator.ts:187-233 | with `iterate` and `generate_last_relationship_data` every step commits one entry in step order: the k-th new entry is for select index `position + 1 + k`, the first for the table the walk starts in |
| Navigator.WalkLastOnly | specifyweb/frontend/js_src/lib/wbplanviewnavigator.ts:393-410 | without `iterate` a walk commits at most one entry, for the select after the last path element |
| Navigator.ToManyChildrenFields | specifyweb/frontend/js_src/lib/wbplanviewnavigator.ts:478-510 | the to-many handler offers `add` and the reference items numbered 1 to the largest mapped number, with the next element counted among the mapped fields, and nothing else |
| Navigator.TreeRankFields | specifyweb/frontend/js_src/lib/wbplanviewnavigator.ts:512-532 | the tree-rank handler offers one entry per rank of the table, in rank order, under the formatted rank name, with the rank's required flag and the default marked; a tree table without ranks throws |
| Navigator.SimpleFieldsOffered | specifyweb/frontend/js_src/lib/wbplanviewnavigator.ts:534-593 | a field is offered exactly when it is not a circular relationship, not a to-many inside a to-many and visible; an offered field is enabled exactly when it is unmapped or a relationship, and is the default exactly when it is the next element |
| MappingLineData.Builder.constructor | specifyweb/frontend/js_src/lib/wbplanviewnavigator.ts:373-391 | the state starts at position -1 with no line data, no fields and no mapped fields, over the caller's mapping path |
| MappingLineData.Builder.GetNextPathElement | specifyweb/frontend/js_src/lib/wbplanviewnavigator.ts:412-443 | the callback leaves exactly the state `Navigator.GetNextPathElement` computes and reports the same element |
| MappingLineData.Builder.FindNextNavigationDirection | specifyweb/frontend/js_src/lib/wbplanviewnavigator.ts:94-138 | the method leaves the state and returns the direction `Navigator.FindNextNavigationDirection` computes |
| MappingLineData.Builder.PreNext | specifyweb/frontend/js_src/lib/wbplanviewnavigator.ts:457-468 | the pre-hook's read of the next element leaves the next element, the default value and the array (its elements and its property `-1`) as `Navigator.PreNext` computes them with the rewrite as written, and nothing else changes |
| MappingLineData.Builder.NavigatorInstancePre | specifyweb/frontend/js_src/lib/wbplanviewnavigator.ts:445-476 | the pre-hook leaves the state `Navigator.NavigatorInstancePre` computes with the rewrite as written at ts:466 |
| MappingLineData.Builder.HandleToManyChildren | specifyweb/frontend/js_src/lib/wbplanviewnavigator.ts:478-510 | the handler leaves the state `Navigator.HandleToManyChildren` computes |
| MappingLineData.Builder.HandleTreeRanks | specifyweb/frontend/js_src/lib/wbplanviewnavigator.ts:512-532 | the handler leaves the state `Navigator.HandleTreeRanks` computes, or throws as it does |
| MappingLineData.Builder.HandleSimpleFields | specifyweb/frontend/js_src/lib/wbplanviewnavigator.ts:534-593 | the handler leaves the state `Navigator.HandleSimpleFields` computes |
| MappingLineData.Builder.GetInstanceData | specifyweb/frontend/js_src/lib/wbplanviewnavigator.ts:595-618 | the instance data is the one `Navigator.GetInstanceData` computes from the current state |
| MappingLineData.Builder.CommitInstanceData | specifyweb/frontend/js_src/lib/wbplanviewnavigator.ts:620-625 | committing appends the data to the line data, as `Navigator.CommitInstanceData` does |
| MappingLineData.Builder.NavigatorInstance | specifyweb/frontend/js_src/lib/wbplanviewnavigator.ts:274-326 | one step leaves the state `Navigator.NavigatorInstance` computes with the rewrite as written, so exactly one entry is committed |
| MappingLineData.Builder.Walk | specifyweb/frontend/js_src/lib/wbplanviewnavigator.ts:141-235 | the recursive walk over the mutable state returns and leaves what `Navigator.Walk` computes with the rewrite as written, so the walk lemmas hold for it |
| MappingLineData.GetMappingLineData | specifyweb/frontend/js_src/lib/wbplanviewnavigator.ts:332-638 | the line data, and the caller's mapping path as the walk leaves it, are those `Navigator.GetMappingLineData` computes: one entry per select as `Navigator.LineDataPerStep` states, and the path rewritten as `Navigator.MappingPathAfterCall` states |
| Mapper.MappingPathIsComplete | specifyweb/frontend/js_src/lib/components/wbplanviewmapper.tsx:163-164 | a path is complete exactly when it is empty or its last element is not `'0'` |
| Mapper.GetArrayOfMappings | specifyweb/frontend/js_src/lib/components/wbplanviewmapper.tsx:131-138 | only complete paths are kept, never more than there are lines |
| Mapper.ArrayOfMappingsIndexes | specifyweb/frontend/js_src/lib/components/wbplanviewmapper.tsx:131-138 | the kept paths are those of exactly the complete lines, in line order: the k-th path is the path of the k-th complete line |
| Mapper.CompleteLinesCounted | specifyweb/frontend/js_src/lib/components/wbplanviewmapper.tsx:134-136 | every complete line is among the complete positions |
| Mapper.AllCompleteArray | specifyweb/frontend/js_src/lib/components/wbplanviewmapper.tsx:131-138 | when every line is complete, the k-th path is the path of line k |
| Mapper.GetMappingsTree | specifyweb/frontend/js_src/lib/components/wbplanviewmapper.tsx:141-146 | the tree of the complete paths is a trie in which a key sequence can be followed exactly when it is a prefix of one of those paths |
| Mapper.CrossTrie | specifyweb/frontend/js_src/lib/components/wbplanviewmapper.tsx:153-158 | probing a tree made of objects with a path never throws, and what it finds is again such a tree |
| Mapper.GetMappedFields | specifyweb/frontend/js_src/lib/components/wbplanviewmapper.tsx:149-161 | the mapped fields under a path are the tree's node at that path when the path can be followed, and `{}` otherwise |
| Mapper.MappedFieldsKeys | specifyweb/frontend/js_src/lib/components/wbplanviewmapper.tsx:149-161 | a key is a mapped field under a path exactly when that path followed by the key starts some complete line's path |
| Mapper.DeduplicateMappings | specifyweb/frontend/js_src/lib/components/wbplanviewmapper.tsx:167-184 | as written, a line whose position is among the flagged indexes loses its last path element and every other line is kept, though the indexes count complete paths, not lines |
| Mapper.DeduplicateAligned | specifyweb/frontend/js_src/lib/components/wbplanviewmapper.tsx:172-182 | when every line is complete, the line that is cut is the line whose path was flagged, and it loses that path's last element |
| Mapper.DeduplicateShifted | specifyweb/frontend/js_src/lib/components/wbplanviewmapper.tsx:172-182 | with an unmapped line in front, flagging the second of two equal paths cuts the first of them |
| Mapper.DeduplicateMappingsCorrected | specifyweb/frontend/js_src/lib/components/wbplanviewmapper.tsx:167-184 | a line is cut exactly when its complete path is flagged by its position among the complete paths; every other line is kept |
| Mapper.DeduplicateCorrectedCutsFlagged | specifyweb/frontend/js_src/lib/components/wbplanviewmapper.tsx:172-182 | every flagged path is cut on the line it came from, whatever unmapped lines lie before it |
| Mapper.DeduplicateCorrectedShifted | specifyweb/frontend/js_src/lib/components/wbplanviewmapper.tsx:172-182 | on the same lines the corrected version cuts the second of the two equal paths |
| Mapper.MutateMappingPath | specifyweb/frontend/js_src/lib/components/wbplanviewmapper.tsx:295-321 | the edited path throws exactly when `lines[line]` does, and keeps the elements before `index`; `'add'` writes the reference item after the highest one mapped under the path so far, a reference item or tree rank replaces the element at `index`, and any other value ends the path at `index` |
| Mapper.MutateKeepsTail | specifyweb/frontend/js_src/lib/components/wbplanviewmapper.tsx:309-317 | choosing a reference item or a rank keeps the rest of the path, and choosing anything else ends the path with the chosen value |
| Mapper.GetLinesFromHeaders | specifyweb/frontend/js_src/lib/components/wbplanviewmapper.tsx:60-99 | there is one line per header, in order, each an existing header; it is unmapped (`['0']`) unless the automapper runs and proposes a path for that header |
| Mapper.HeadersStartUnmapped | specifyweb/frontend/js_src/lib/components/wbplanviewmapper.tsx:106-109 | without the automapper no line is complete, so there are no paths and the tree is `{}` |
| Mapper.IndexOf | specifyweb/frontend/js_src/lib/components/wbplanviewmapper.tsx:114 | `headers.indexOf` gives the first position of the header, or -1 when the value is not a string among the headers |
| Mapper.FlatPlan | specifyweb/frontend/js_src/lib/components/wbplanviewmapper.tsx:110-111 | every path flattened from the plan's mappings tree ends with a mapping type and a header |
| Mapper.LastPathWins | specifyweb/frontend/js_src/lib/components/wbplanviewmapper.tsx:112-121 | after the loop, a header's line holds the last flattened path that names that header, and a line no path names is unchanged |
| Mapper.OverwriteLines | specifyweb/frontend/js_src/lib/components/wbplanviewmapper.tsx:112-121 | the loop over the flattened paths, writing into the array of lines, leaves what `ApplyPaths` computes |
| Mapper.GetLinesFromUploadPlan | specifyweb/frontend/js_src/lib/components/wbplanviewmapper.tsx:101-128 | the lines start unmapped and each flattened path of the plan's tree is written over the line whose header is the path's last element; a converter exception is passed on |
| Mapper.LinesFromUploadPlan | specifyweb/frontend/js_src/lib/components/wbplanviewmapper.tsx:101-128 | the lines built from a plan are one per header, in header order |
| Mapper.ApplyPathsUnwritten | specifyweb/frontend/js_src/lib/components/wbplanviewmapper.tsx:112-121 | paths whose last element is no header leave every line as it was |
| Mapper.ColumnPlanRestoresNoLine | specifyweb/frontend/js_src/lib/components/wbplanviewmapper.tsx:110-121 | with the shown converter a plan of column mappings flattens to paths ending in the options object, so no line is restored: the result is the unmapped lines of the headers |
| Mapper.AutomapperSuggestions | specifyweb/frontend/js_src/lib/components/wbplanviewmapper.tsx:192-263 | `lines[line]` throws outside the lines; there are suggestions only for an existing header whose incomplete path ends at `index` when the automapper found something; there are at most three, each the line data of a suggested path after the elements already chosen |
| Mapper.SuggestionsCount | specifyweb/frontend/js_src/lib/components/wbplanviewmapper.tsx:244-250 | under that guard the suggestions are the first paths the automapper found, up to three |
| PathHelper.FindArrayDivergencePoint | specifyweb/frontend/js_src/lib/wb_upload/helper.js:31-63 | the result is `null` exactly when either array is; otherwise it is 0 for an empty search, -1 when the search is not a prefix of the source, the search's length when it is a proper prefix, and the last index when the two are equal |
| PathHelper.PathArray.constructor | specifyweb/frontend/js_src/lib/wb_upload/helper.js:65-79 | the array holds the given elements |
| PathHelper.PathArray.Pop | specifyweb/frontend/js_src/lib/wb_upload/helper.js:70-71 | `pop` removes and returns the last element, or returns `undefined` on an empty array |
| PathHelper.DeconstructMappingPath | specifyweb/frontend/js_src/lib/wb_upload/helper.js:65-79 | with a header the header and the mapping type are popped off the caller's array; with one element only the header is popped and the mapping type is undefined, and with none both are undefined; the path is empty when it ends in `'0'` and unmapped paths are detected, and is what remains otherwise |
| PathHelper.Deconstructed | specifyweb/frontend/js_src/lib/wb_upload/helper.js:74-77 | with the defaults the path comes back empty exactly when it is empty or ends in `'0'`, and unchanged otherwise |
| PathHelper.DeconstructDefaults | specifyweb/frontend/js_src/lib/wb_upload/helper.js:65-79 | calling with the defaults returns `Deconstructed` of the path |
| PathHelper.FindDuplicateMappings | specifyweb/frontend/js_src/lib/wb_upload/helper.js:82-107 | the reported indexes ascend, and an index is reported exactly when its mapping's non-empty key was already seen at an earlier index |
| PathHelper.FirstOccurrenceKept | specifyweb/frontend/js_src/lib/wb_upload/helper.js:93-99 | the first mapping with a key, and an unmapped one, is never reported |
| PathHelper.UnmappedHasEmptyKey | specifyweb/frontend/js_src/lib/wb_upload/helper.js:84-94 | a path ending in `'0'` has the empty key and never takes part |
| PathHelper.CommaKeysCollide | specifyweb/frontend/js_src/lib/wb_upload/helper.js:85 | two different paths can share a key, because `join()` cannot tell an element holding a comma from two elements |
| PathHelper.SpaceCapitals | specifyweb/frontend/js_src/lib/wb_upload/helper.js:17 | a space is put before every capital, so the length grows by the number of capitals and no letter changes |
| PathHelper.Trim | specifyweb/frontend/js_src/lib/wb_upload/helper.js:18 | `trim` removes white space at both ends and only there |
| PathHelper.TrimKeepsLetters | specifyweb/frontend/js_src/lib/wb_upload/helper.js:18 | where only spaces can be white space, trimming removes no letter |
| PathHelper.Capitalize | specifyweb/frontend/js_src/lib/wb_upload/helper.js:19 | the first character is upper-cased and the rest is kept |
| PathHelper.JoinCapitals | specifyweb/frontend/js_src/lib/wb_upload/helper.js:21-24 | the regular-expression replacement only removes spaces, never a letter |
| PathHelper.ReplaceFirst | specifyweb/frontend/js_src/lib/wb_upload/helper.js:26 | `replace` with a string pattern replaces the first occurrence and leaves a string without one unchanged |
| PathHelper.FriendlyNameLetters | specifyweb/frontend/js_src/lib/wb_upload/helper.js:16-26 | for a name without white space, the friendly name before `Dna` becomes `DNA` is the name with its first letter a capital, with spaces added or removed only |
| PathHelper.GetFriendlyName | specifyweb/frontend/js_src/lib/wb_upload/helper.js:16-28 | for a name without white space, the friendly name is the name with its first letter a capital and only spaces inserted, and then the first `Dna` written `DNA` |
| ColumnOptions.BehaviorName | specifyweb/workbench/upload/column_options.py:4 | the stored name is `ignoreNever` exactly for the default match behaviour |
| ColumnOptions.ToJson | specifyweb/workbench/upload/column_options.py:12-16 | the bare column name is written exactly when the match behaviour is `ignoreNever`, nulls are allowed and there is no default; otherwise all four fields are written in declaration order |
| ColumnOptions.FormIgnoresColumn | specifyweb/workbench/upload/column_options.py:13 | which of the two forms is written does not depend on the column |
| ColumnOptions.FromJson | specifyweb/workbench/upload/column_options.py:12-16 | a reference reader for the round trip (the uploader's own reader is not part of this model; the mapping screen's reading is `ReadByMappingScreen`): a bare name is read as that column with the default options |
| ColumnOptions.RoundTrip | specifyweb/workbench/upload/column_options.py:12-16 | reading the written form gives back the same column options |
| ColumnOptions.FullFormValue | specifyweb/workbench/upload/column_options.py:16 | the full form, as a plan value, is the column followed by its three options |
| ColumnOptions.FullFormRead | specifyweb/workbench/upload/column_options.py:16 | the mapping screen reads the full form as its column with exactly its three options |
| ColumnOptions.ReadByMappingScreen | specifyweb/workbench/upload/column_options.py:12-16 | with the uploader's defaults the mapping screen reads a stored column as the column it was written for, with exactly its options |
| Upload.CaptionToIndex | specifyweb/workbench/upload/upload.py:44-48 | an exception is raised exactly when no item has the caption; otherwise the result is one past the view order of the first item with the caption |
| Upload.LaterItemsIrrelevant | specifyweb/workbench/upload/upload.py:45-47 | items after the first one with the caption do not affect the result |
| Views.Escape | specifyweb/workbench/views.py:143 | each single quote grows by three characters when escaped |
| Views.ShellQuote | specifyweb/workbench/views.py:141-143 | the quoted argument begins and ends with a single quote |
| Views.ReplaceQuotesIsEscape | specifyweb/workbench/views.py:143 | `replace("'", "'\\''")` escapes every single quote and nothing else |
| Views.ShellQuoteShape | specifyweb/workbench/views.py:141-143 | the quoted argument begins and ends with a quote and is two characters plus three per quote longer |
| Views.ShellQuoteNoQuote | specifyweb/workbench/views.py:141-143 | an argument without a quote is only wrapped in quotes |
| Views.QuotedEscape | specifyweb/workbench/views.py:143 | the shell reads the escaped text up to the closing quote back as the argument |
| Views.ShellQuoteRoundTrip | specifyweb/workbench/views.py:141-143 | a POSIX shell reads the quoted word back as exactly the argument |
| Views.PyIndex | specifyweb/workbench/views.py:280 | `row[i]` exists exactly for `-len <= i < len`, and a negative index counts from the end |
| Views.PermuteColumns | specifyweb/workbench/views.py:279-280 | the permuted row exists exactly when every index of the map is valid for the row, and its k-th cell is the row's cell at the k-th index |
| Views.PermuteRows | specifyweb/workbench/views.py:282-284 | every row is permuted, and the import fails when any row is too short |
| Views.ImportRows | specifyweb/workbench/views.py:282-287 | the saved rows are all permuted rows, the header row too, and the first one is dropped when `hasHeader` is `true` in any case |
| Views.HeaderDropped | specifyweb/workbench/views.py:253-287 | with `hasHeader=True` all but the first permuted row are saved; without the parameter all of them are |
| Views.HasHeader | specifyweb/workbench/views.py:253 | true exactly when the parameter is present and reads `true` in any case; an absent parameter means false |
| CollectorRules.MaxOrderNumber | specifyweb/businessrules/collector_rules.py:11-12 | the aggregate is null exactly when the event has no numbered collector, and otherwise is the largest order number among them |
| CollectorRules.Collector.constructor | specifyweb/businessrules/collector_rules.py:8 | a new collector has no id |
| CollectorRules.Collector.PreSave | specifyweb/businessrules/collector_rules.py:7-13 | only an unsaved collector without an order number is numbered, one past the event's highest number (null or 0 counting as 0); every other collector keeps its number |
| CollectorRules.NextNumberIsFresh | specifyweb/businessrules/collector_rules.py:11-13 | the number given is above every order number the event already has, and is 1 when the event has none |
| CollectorRules.NextFollowsMaximum | specifyweb/businessrules/collector_rules.py:12-13 | when the highest existing number is not 0 the new number follows it directly |
| TreeRecords.StringEntriesOfRanks | specifyweb/workbench/upload/treerecord.py:37-39 | the ranks written as JSON members are read back as the same rank entries |
| TreeRecords.ToJsonRoundTrip | specifyweb/workbench/upload/treerecord.py:37-39 | the ranks of `{'treeRecord': {'ranks': ranks}}` read back as the record's ranks |
| TreeRecords.ToJson | specifyweb/workbench/upload/treerecord.py:37-39 | one `treeRecord` member holding `{ranks: ...}` |
| TreeRecords.IsOneToOne | specifyweb/workbench/upload/treerecord.py:58-59 | a tree record is never one-to-one |
| TreeRecords.MustMatch | specifyweb/workbench/upload/treerecord.py:61-62 | a tree record never demands a match from the record that holds it |
| TreeRecords.FilterOn | specifyweb/workbench/upload/treerecord.py:64-65 | a tree record adds no filters and no exclusions |
| TreeRecords.UnparseUnreadable | specifyweb/workbench/upload/treerecord.py:41-42 | the plan `unparse` writes has no `uploadable` key, so the mapping screen's reading of it ends in a `TypeError` for every tree record |
| TreeRecords.Unparse | specifyweb/workbench/upload/treerecord.py:41-42 | `unparse` as written: no member is keyed `uploadable`, and one member holds the record's ranks |
| TreeRecords.UnparseCorrected | specifyweb/workbench/upload/treerecord.py:41-42 | the corrected `unparse` writes the record's ranks under the key `uploadable` |
| TreeRecords.StringRanksConvert | specifyweb/workbench/upload/treerecord.py:37-39 | ranks whose columns are strings all convert on the mapping screen |
| TreeRecords.RecordConverts | specifyweb/workbench/upload/treerecord.py:37-39 | the `treeRecord` object of a tree record converts on the mapping screen |
| TreeRecords.UploadableConverts | specifyweb/workbench/upload/treerecord.py:37-39 | a tree record's JSON converts as an uploadable and, not being must-match, sets no preference |
| TreeRecords.UnparseCorrectedReadable | specifyweb/workbench/upload/treerecord.py:41-42 | the plan written under `uploadable` is read back with the tree's table as base table and no must-match preference |
| TreeRecords.RankValueFrom | specifyweb/workbench/upload/treerecord.py:112-115 | a rank's value is the stripped cell of the last column mapped to it, and only a mapped rank has one |
| TreeRecords.WithValues | specifyweb/workbench/upload/treerecord.py:117-120 | each level of the definition, highest rank id first, is paired with the row's value for it |
| TreeRecords.DropLeadingNone | specifyweb/workbench/upload/treerecord.py:117-120 | `dropwhile` removes exactly the levels before the first one with a value |
| TreeRecords.FillRoot | specifyweb/workbench/upload/treerecord.py:126-129 | a root without a value gets `"Uploaded"`; every other level, and a root with a value, is kept |
| TreeRecords.Enforced | specifyweb/workbench/upload/treerecord.py:131-135 | the kept levels all have values, and a first or last level that has a value is kept as it is |
| TreeRecords.EnforcedMembers | specifyweb/workbench/upload/treerecord.py:131-135 | exactly the levels that have a value or are enforced are kept, each enforced one without a value filled with `"Uploaded"` |
| TreeRecords.FillRootFirst | specifyweb/workbench/upload/treerecord.py:126-129 | filling in the root keeps a first level that has a value |
| TreeRecords.Prepare | specifyweb/workbench/upload/treerecord.py:117-135 | every prepared level has a value |
| TreeRecords.PrepareEnds | specifyweb/workbench/upload/treerecord.py:117-135 | nothing is prepared exactly when no level has a value; otherwise the lowest level with a value comes first and the root comes last |
| TreeRecords.MatchResultSpec | specifyweb/workbench/upload/treerecord.py:137-173 | the levels given up on are the lowest ones, each for a path the query did not find; the ids are those of the first path found, and there are none only when every level was given up on |
| TreeRecords.MatchLoop | specifyweb/workbench/upload/treerecord.py:139-173 | the `while` loop that pops the lowest level until a query finds something returns `MatchResult` |
| TreeRecords.MatchResultGivesUp | specifyweb/workbench/upload/treerecord.py:168-171 | when the query finds nothing the lowest level is given up on and the search goes on without it |
| TreeRecords.Found | specifyweb/workbench/upload/treerecord.py:105-173 | every level `_match` gives up on has a value, so every node the upload creates has a name |
| TreeRecords.GivenUpHaveValues | specifyweb/workbench/upload/treerecord.py:171 | the levels given up on are a prefix of the prepared ones, so they all have values |
| TreeRecords.Match | specifyweb/workbench/upload/treerecord.py:105-173 | `_match` returns the levels given up on and the ids matched, as `Found` says; no tree data gives neither |
| TreeRecords.Columns | specifyweb/workbench/upload/treerecord.py:75 | the reported columns are the rank columns in order |
| TreeRecords.ClassifyRow | specifyweb/workbench/upload/treerecord.py:73-84 | a row with no value for any level is a null record; a whole path found once is a match and found several times a multiple match; otherwise a must-match record fails to match and any other one is uploaded |
| TreeRecords.Classify | specifyweb/workbench/upload/treerecord.py:76-84 | nothing to upload gives a null record for no match, a match for one and a multiple match for several ids; something to upload gives no match for a must-match record and otherwise leaves the row to the upload |
| TreeRecords.Chain | specifyweb/workbench/upload/treerecord.py:89-98 | the upload makes one node per level from the highest down, the first under the matched parent and each later one under the node made just before it |
| TreeRecords.ChainSnoc | specifyweb/workbench/upload/treerecord.py:89-98 | one more level adds the node for it to the chain |
| TreeRecords.ChainStep | specifyweb/workbench/upload/treerecord.py:89-98 | the chain of the first i+1 levels is the chain of the first i and then the node for level i |
| TreeRecords.Reversed | specifyweb/workbench/upload/treerecord.py:89 | `reversed` gives the elements in the opposite order |
| TreeRecords.TreeTable.constructor | specifyweb/workbench/upload/treerecord.py:86 | the table holds the given nodes |
| TreeRecords.TreeTable.Save | specifyweb/workbench/upload/treerecord.py:97 | saving stores the node under the next id |
| TreeRecords.UploadChain | specifyweb/workbench/upload/treerecord.py:87-98 | the loop stores exactly the chain of the levels, highest first, and reports the id of the last node made |
| TreeRecords.Settle | specifyweb/workbench/upload/treerecord.py:76-100 | once `_match` has answered, a must-match record with levels to upload reports no match; a match or null record changes nothing; otherwise the chain is uploaded under the first id matched |
| TreeRecords.HandleRow | specifyweb/workbench/upload/treerecord.py:73-100 | `_handle_row` reports no match exactly for a must-match record with levels to upload; a match or null record leaves the table as it is; otherwise the levels given up on are uploaded under the first node matched, or as a new root, and the lowest node made is reported |
| TreeRecords.MatchRow | specifyweb/workbench/upload/treerecord.py:67-68 | `match_row` never uploads and never changes the table |
| TreeRecords.ProcessRow | specifyweb/workbench/upload/treerecord.py:70-71 | `process_row` never reports no match |
| Parsing.FilterAndUpload | specifyweb/workbench/upload/parsing.py:33-34 | the same dictionary is matched on and uploaded, with nothing for a picklist |
| Parsing.ParseMany | specifyweb/workbench/upload/parsing.py:36-44 | unless `row[caption]` raises `KeyError`, there are as many results and issues together as mapping entries |
| Parsing.ParseManyRaises | specifyweb/workbench/upload/parsing.py:36-40 | `parse_many` raises `KeyError` exactly when some caption is missing from the row, and then for the first such caption |
| Parsing.ParseManyExact | specifyweb/workbench/upload/parsing.py:36-44 | with every caption present, the results are exactly the successful cells' results and the issues exactly the failures' `CellIssue(caption, message)`, each in mapping order |
| Parsing.ParseManyAllParsed | specifyweb/workbench/upload/parsing.py:36-44 | when every cell parses, the results are the parsed values in mapping order and there is no issue |
| Parsing.ParseValue | specifyweb/workbench/upload/parsing.py:46-87 | the value is stripped first; a blank value fails for a required field and otherwise is `{fieldname: None}` to match on and nothing to upload; an agent type goes to `parse_agenttype` |
| Parsing.BlankValueNotParsed | specifyweb/workbench/upload/parsing.py:54-57 | a blank cell's outcome depends on nothing but whether the field is required |
| Parsing.PlainValueStripped | specifyweb/workbench/upload/parsing.py:46-87 | a value that no special parser takes is matched and uploaded stripped, so leading spaces make no difference |
| Parsing.LeadingSpaces | specifyweb/workbench/upload/parsing.py:47 | `strip` ignores leading spaces |
| Parsing.ParseBoolean | specifyweb/workbench/upload/parsing.py:89-97 | `yes`/`true` and `no`/`false` parse in any case to true and false; anything else fails with the message naming the value |
| Parsing.IndexOf | specifyweb/workbench/upload/parsing.py:132 | `list.index` finds the first position of a present value, and there is none for an absent one |
| Parsing.ParseAgentType | specifyweb/workbench/upload/parsing.py:127-135 | the capitalized value parses exactly when it is an agent type, to its position; otherwise it fails with the message naming it |
| Parsing.AgentTypeAnyCase | specifyweb/workbench/upload/parsing.py:127-135 | an agent type is recognised in any mix of upper and lower case, and only then |
| Parsing.ParseString | specifyweb/workbench/upload/parsing.py:168-172 | the result is `None` exactly for a value of white space only, and otherwise the stripped value |
| Parsing.ParseStringIdempotent | specifyweb/workbench/upload/parsing.py:168-172 | a parsed string parses to itself |
| Parsing.IsLatLong | specifyweb/workbench/upload/parsing.py:174-176 | only `Locality` fields are coordinates, and each coordinate field has one of the text keys `lat1text`, `long1text`, `lat2text`, `long2text` |
| Parsing.TextKey | specifyweb/workbench/upload/parsing.py:191 | the text key ends in `text` |
| Parsing.TextKeyDropsItude | specifyweb/workbench/upload/parsing.py:191 | a coordinate field `<a>itude<b>` keeps its text under `<a><b>text` |
| CellInfos.Init | specifyweb/frontend/js_src/lib/wbview.js:155-160 | a hole gets a fresh record (not new, no issues, no search match); an existing record and every other slot are kept |
| CellInfos.ColumnOf | specifyweb/frontend/js_src/lib/wbview.js:192-195 | a header names its last column; an unknown header names none |
| CellInfos.UcFirst | specifyweb/frontend/js_src/lib/wbview.js:206 | a non-empty issue keeps its length and gets its first letter upper-cased; an empty one has no first character and throws |
| CellInfos.ColumnPairs | specifyweb/frontend/js_src/lib/wbview.js:213-215 | a table issue is added once to each of its columns, in order |
| CellInfos.CellPairs | specifyweb/frontend/js_src/lib/wbview.js:217-219 | a cell issue is added to its own column |
| CellInfos.ExtendTwice | specifyweb/frontend/js_src/lib/wbview.js:207 | pushing two lists of issues one after the other pushes their concatenation |
| CellInfos.ExtendNothing | specifyweb/frontend/js_src/lib/wbview.js:207 | pushing no issues leaves a record as it is |
| CellInfos.AddIssueCell | specifyweb/frontend/js_src/lib/wbview.js:201-208 | adding a non-empty issue touches only the named column's record of the row, which is created if missing and gets the upper-cased issue |
| CellInfos.AddIssue | specifyweb/frontend/js_src/lib/wbview.js:201-208 | adding one issue throws exactly when the issue is empty, and never removes a record |
| CellInfos.AddIssues | specifyweb/frontend/js_src/lib/wbview.js:213-219 | adding the issues throws only when one of them is empty, and never removes a record |
| CellInfos.AddIssueOutside | specifyweb/frontend/js_src/lib/wbview.js:201-208 | adding an issue changes no record outside the row |
| CellInfos.AddIssuesCell | specifyweb/frontend/js_src/lib/wbview.js:213-219 | after all issues, a column's record is its old record extended by the issues naming that column, in order |
| CellInfos.AddIssuesOutside | specifyweb/frontend/js_src/lib/wbview.js:213-219 | adding the issues changes no record outside the row |
| CellInfos.AddIssuesThrows | specifyweb/frontend/js_src/lib/wbview.js:201-219 | adding the issues throws exactly when one of them is empty |
| CellInfos.MarkAllNewCell | specifyweb/frontend/js_src/lib/wbview.js:221-226 | a column's record is marked new exactly when a new row names the column, and is created if missing |
| CellInfos.MarkAllNew | specifyweb/frontend/js_src/lib/wbview.js:221-226 | marking new cells keeps every record and every `isNew` already set |
| CellInfos.MarkAllNewOutside | specifyweb/frontend/js_src/lib/wbview.js:221-226 | marking new cells changes no record outside the row |
| CellInfos.ClearedAt | specifyweb/frontend/js_src/lib/wbview.js:197-199 | deleting the row's records leaves holes at exactly the row's cells |
| CellInfos.NullResultClearsRow | specifyweb/frontend/js_src/lib/wbview.js:210-211 | a null result leaves every cell of the row without a record |
| CellInfos.OtherRowsKept | specifyweb/frontend/js_src/lib/wbview.js:190-227 | validating a row changes no record of another row |
| CellInfos.RowRecord | specifyweb/frontend/js_src/lib/wbview.js:190-227 | after validating a row, each of its cells holds exactly the issues naming its column, first letters upper-cased, and is new exactly when a new row names its column; a cell with neither has no record |
| CellInfos.RowValidated | specifyweb/frontend/js_src/lib/wbview.js:190-227 | validating a row throws only for a result holding an empty issue |
| CellInfos.Count | specifyweb/frontend/js_src/lib/wbview.js:177-179 | the count is at most the array's length and is zero exactly when no present record is of the type; holes are skipped |
| CellInfos.Total | specifyweb/frontend/js_src/lib/wbview.js:175-186 | every panel of a known type shows a total, and an unknown type shows none |
| CellInfos.CountSplit | specifyweb/frontend/js_src/lib/wbview.js:177-179 | the count of a whole array is the count of a prefix plus the count of the rest |
| CellNavigation.Scan | specifyweb/frontend/js_src/lib/wbutils.js:55-67 | a position the scan stops at holds a record of the type and is not the start unless the start may match |
| CellNavigation.ScanNearest | specifyweb/frontend/js_src/lib/wbutils.js:55-67 | the scan stops at the nearest such record in its direction; finding nothing means there is none on that side, except that a backward scan starting past the end of the array looks at nothing |
| CellNavigation.PreviousPastEndMisses | specifyweb/frontend/js_src/lib/wbutils.js:57-67 | with one invalid cell at index 0 and the selection at index 3, the backward scan finds nothing |
| CellNavigation.ClampedFindsNearest | specifyweb/frontend/js_src/lib/wbutils.js:55-67 | a backward scan that starts at the last record when the selection lies past the end finds the nearest record before the selection, and finds nothing exactly when there is none |
| CellNavigation.Decode | specifyweb/frontend/js_src/lib/wbutils.js:69-71 | the row and column decoded from a flat index give it back as `row * cols + col`, with the column below the column count |
| CellNavigation.DecodeInverts | specifyweb/frontend/js_src/lib/wbutils.js:69-71 | decoding the flat index of a cell gives that cell's row and column |
| CellNavigation.RelativePositionRanks | specifyweb/frontend/js_src/lib/wbutils.js:74 | the number shown for a found cell lies between 1 and the panel's total, and a later cell gets a larger number |
| CellNavigation.SecondNavigationStays | specifyweb/frontend/js_src/lib/wbutils.js:105-106 | when the search's first navigation finds a cell, the second one, in either direction, stays on it |
| CellTable.Unmarked | specifyweb/frontend/js_src/lib/wbutils.js:93-95 | every record loses its search mark and holes stay holes |
| CellTable.MarkResultsAt | specifyweb/frontend/js_src/lib/wbutils.js:96-99 | exactly the cells of the results are marked, each given a record if it had none; other slots are kept |
| CellTable.UnmarkedAt | specifyweb/frontend/js_src/lib/wbutils.js:93-95 | clearing the marks touches only the mark of each present record |
| CellTable.SearchMarks | specifyweb/frontend/js_src/lib/wbutils.js:93-99 | after a search, a result cell holds its record (or a fresh one) marked as matching, any other record loses its mark, and holes stay holes |
| CellTable.ReplacementsFail | specifyweb/frontend/js_src/lib/wbutils.js:117-126 | the replacement throws exactly when some marked cell's value is null |
| CellTable.ReplacementsCount | specifyweb/frontend/js_src/lib/wbutils.js:117-126 | without a throw there is one update per marked record, as many as the search panel counts |
| CellTable.ReplacementAt | specifyweb/frontend/js_src/lib/wbutils.js:117-124 | the marked cell at an index gets the update numbered by the marked cells before it: its row, its column and its value with the query replaced |
| CellTable.ReplacementText | specifyweb/frontend/js_src/lib/wbutils.js:122 | splitting on a non-empty query and joining with the replacement replaces every occurrence of the query |
| CellTable.AfterStep | specifyweb/frontend/js_src/lib/wbutils.js:117-124 | collecting one more update and then the rest gives the same updates as collecting them all at once |
| CellTable.CellTable.constructor | specifyweb/frontend/js_src/lib/wbutils.js:12-16 | a new view has no records and no search query |
| CellTable.CellTable.InitCellInfo | specifyweb/frontend/js_src/lib/wbutils.js:20-25 | the record at `row * cols + col` is created if missing; every other slot and the query are kept |
| CellTable.CellTable.HeaderToCol | specifyweb/frontend/js_src/lib/wbview.js:192-195 | the map holds exactly the headers, each mapped to its last column |
| CellTable.CellTable.ClearRow | specifyweb/frontend/js_src/lib/wbview.js:197-199 | the row's records are deleted and nothing else changes |
| CellTable.CellTable.AddErrorMessage | specifyweb/frontend/js_src/lib/wbview.js:201-208 | the issue is added as `AddIssue` says, throwing exactly for an empty issue |
| CellTable.CellTable.MarkCellNew | specifyweb/frontend/js_src/lib/wbview.js:221-226 | the named column's record of the row is created if missing and marked new |
| CellTable.CellTable.AddErrorMessages | specifyweb/frontend/js_src/lib/wbview.js:213-219 | the records become `AddIssues` of the old ones, stopping at the first empty issue; the search query is kept |
| CellTable.CellTable.MarkCellsNew | specifyweb/frontend/js_src/lib/wbview.js:221-226 | the records become `MarkAllNew` of the old ones; the search query is kept |
| CellTable.CellTable.ParseRowValidationResult | specifyweb/frontend/js_src/lib/wbview.js:190-227 | the records become `RowValidated` of the old ones, about which `RowRecord`, `OtherRowsKept` and `NullResultClearsRow` state the content |
| CellTable.CellTable.NavigateCells | specifyweb/frontend/js_src/lib/wbutils.js:26-78 | the selection moves to the cell the scan finds, and the number shown is its rank among the records of the type; finding nothing changes neither |
| CellTable.CellTable.ClearSearchMarks | specifyweb/frontend/js_src/lib/wbutils.js:93-95 | every record loses its search mark |
| CellTable.CellTable.MarkSearchResults | specifyweb/frontend/js_src/lib/wbutils.js:96-99 | every result cell gets a record marked as matching |
| CellTable.CellTable.SearchCells | specifyweb/frontend/js_src/lib/wbutils.js:79-108 | the query is stored, the marks become those of the results, and both navigation buttons run, each allowed to stop on the selected cell |
| CellTable.CellTable.ReplaceCells | specifyweb/frontend/js_src/lib/wbutils.js:109-127 | the updates are those of every marked record in index order, or a throw when one of their values is null |
| Fill.FillCells | specifyweb/frontend/js_src/lib/wbutils.js:137-147 | a negative row count throws a `RangeError`; otherwise there is one change per row after the start row up to the end row |
| Fill.FillCellsAfter | specifyweb/frontend/js_src/lib/wbutils.js:137-147 | after the changes, exactly the rows below the start row up to the end row hold the value in that column, and every other cell is unchanged |
| Fill.FillDown | specifyweb/frontend/js_src/lib/wbutils.js:148-153 | fill down fails exactly when the end row is above the start row; each change is in the column, below the start row up to the end row, with the start row's value |
| Fill.FillUp | specifyweb/frontend/js_src/lib/wbutils.js:154-160 | fill up fails exactly when the end row is more than one above the start row; each change is in the column, from the start row to the end row, with the end row's value |
| Fill.FillDownCopies | specifyweb/frontend/js_src/lib/wbutils.js:148-153 | after a fill down, the whole selected run of the column holds the start row's value and nothing else changes |
| Fill.FillUpCopies | specifyweb/frontend/js_src/lib/wbutils.js:154-160 | after a fill up, the whole selected run of the column holds the end row's value and nothing else changes |
| Fill.MenusDisagreeWithoutSelection | specifyweb/frontend/js_src/lib/wbutils.js:185-188 | the fill items and the increment item are enabled exactly when some selection spans several rows, and disagree only when nothing is selected |
| Fill.FillMenuDisabled | specifyweb/frontend/js_src/lib/wbutils.js:185-188 | enabled without a selection (`?? false`), disabled for an empty selection list, and disabled only when every selection lies on one row |
| Fill.IncrementMenuDisabled | specifyweb/frontend/js_src/lib/wbview.js:110-119 | disabled without a selection and for an empty selection list; enabled only when some selection spans several rows |
| Fill.ColumnCalls | specifyweb/frontend/js_src/lib/wbutils.js:191-196 | one call per column of the selection, with its rows |
| Fill.HandlerCalls | specifyweb/frontend/js_src/lib/wbutils.js:189-198 | the callback throws only when a selection ends left of its start column, and each handler call covers the rows and one column of some selection |
| Fill.HandlerCallsThrow | specifyweb/frontend/js_src/lib/wbutils.js:189-198 | a fill item's callback throws exactly when some selection ends left of the column before its start |
| Fill.HandlerCallsPrefix | specifyweb/frontend/js_src/lib/wbutils.js:189-198 | a fill item's calls are a prefix of the increment item's, and all of them when nothing throws |
| Fill.IncrementCallsCover | specifyweb/frontend/js_src/lib/wbview.js:120-133 | the increment item calls `fillDownCells` exactly for the columns inside a selection, with that selection's rows |
| Fill.IncrementCalls | specifyweb/frontend/js_src/lib/wbview.js:120-133 | no call is made when no selection spans more than zero columns (each call's coverage is `IncrementCallsCover`) |
| Fill.ColumnCallsGrow | specifyweb/frontend/js_src/lib/wbview.js:127-132 | one more column adds its call at the end |
| Fill.SelectionCalls | specifyweb/frontend/js_src/lib/wbview.js:127-132 | the inner loop calls `fillDownCells` once per column of the selection, from its start to its end |
| Fill.FillDownMenuCalls | specifyweb/frontend/js_src/lib/wbview.js:120-133 | the callback makes the calls of every selection, in order |
| Fill.FillDownCells | specifyweb/frontend/js_src/lib/wbview.js:544-564 | a `NaN` first cell writes nothing; a null first cell throws once a change is built; otherwise each row from the start to the end row gets the first cell's number plus its offset, zero-padded to the first cell's length |
| Fill.IncrementReadsBack | specifyweb/frontend/js_src/lib/wbview.js:548-560 | for a first cell of decimal digits each row gets decimal digits, at least as long as the first cell, whose value is the first cell's value plus the row's offset |
| Fill.BlankCellWritesNaN | specifyweb/frontend/js_src/lib/wbview.js:548-560 | a blank first cell passes the `isNaN` guard and every row gets the text `NaN` |
| CreatedRows.Nulls | specifyweb/frontend/js_src/lib/wbview.js:274 | `Array(n).fill(null)` is n nulls |
| CreatedRows.Sheet.constructor | specifyweb/frontend/js_src/lib/wbview.js:269 | the sheet holds the given rows |
| CreatedRows.Sheet.FixCreatedRows | specifyweb/frontend/js_src/lib/wbview.js:269-276 | the inserted rows become rows of nulls one longer than the column count, the array grows to hold them, every other row is kept, and rows of the right width stay so |
| JsString.SplitJoinReplaces | specifyweb/frontend/js_src/lib/wbutils.js:122 | `split(q).join(r)` with a non-empty `q` replaces every occurrence of `q` from the left |
| JsString.SplitJoinIdentity | specifyweb/frontend/js_src/lib/wbutils.js:122 | joining the pieces with the query they were split on gives the text back |
| JsString.ReplaceBySelf | specifyweb/frontend/js_src/lib/wbutils.js:122 | replacing a query with itself changes nothing |
| JsString.PadZeros | specifyweb/frontend/js_src/lib/wbview.js:559 | `padStart(len, '0')` keeps the text at the end and fills zeros in front up to the length |
| JsString.PaddedReadsBack | specifyweb/frontend/js_src/lib/wbview.js:559 | a number printed and zero-padded reads back as digits with the same value |
| PyString.Strip | specifyweb/workbench/upload/parsing.py:47 | `strip` removes exactly the leading and trailing white space |
| PyString.StripEmpty | specifyweb/workbench/upload/parsing.py:168-171 | a stripped string is empty exactly when it was all white space |
| PyString.StripIdempotent | specifyweb/workbench/upload/parsing.py:168-172 | stripping twice is stripping once |
| PyString.Capitalize | specifyweb/workbench/upload/parsing.py:130 | `capitalize` upper-cases the first letter, lower-cases the rest and keeps the length |
| PyString.CapitalizeMatches | specifyweb/workbench/upload/parsing.py:130-132 | a string capitalizes to a capitalized word exactly when the two agree ignoring case |
| PyString.ReplaceAll | specifyweb/frontend/js_src/lib/wbutils.js:122 | a string with no occurrence of the pattern is returned unchanged |
| SparseArray.Put | specifyweb/frontend/js_src/lib/wbutils.js:23 | assigning past the end grows the array to hold the index, with holes in between; every other slot is kept |
| SparseArray.Delete | specifyweb/frontend/js_src/lib/wbview.js:198 | `delete` leaves a hole at the index and keeps the length |
| JsValue.Get | specifyweb/frontend/js_src/lib/wbplanviewconverter.ts:248 | a key's property is found exactly when the key is present |
| JsValue.GetPut | specifyweb/frontend/js_src/lib/wbplanviewconverter.ts:248-270 | after assigning a key, reading it gives the new value and every other key reads as before |
| JsValue.PutKeepsDistinct | specifyweb/frontend/js_src/lib/wbplanviewconverter.ts:248-270 | assigning an existing key keeps the key order and a new key is appended |
| JsValue.LookupFromEntries | specifyweb/frontend/js_src/lib/wbplanviewnavigator.ts:517-530 | `Object.fromEntries` keeps, for each key, the value of its last entry |
| JsValue.LastValue | specifyweb/frontend/js_src/lib/wbplanviewnavigator.ts:517-530 | the value of the last entry with a key, and none exactly when no entry has it |
| Json.ToValueFromValue | specifyweb/frontend/js_src/lib/wbplanviewconverter.ts:248 | converting a value to JSON and back gives the same value |
| Json.PropsRoundTrip | specifyweb/frontend/js_src/lib/wbplanviewconverter.ts:248 | an object's properties survive the trip through JSON members |

## Left out

- The data model (`dataModelStorage`, ranks, `tableIsTree`), the model helpers (`valueIsReferenceItem`, `formatTreeRank`, `get_max_to_many_value`, circular and to-many-in-to-many tests), `defaultLineOptions`, the automapper and `wbplanviewhelper.find_duplicate_mappings` are not part of this model: they are parameters (an abstract schema record and uninterpreted functions), so no property depends on their contents.
- `JSON.parse` is an oracle: `uploadPlanStringToObject` receives the parse outcome (a value, a `SyntaxError` or another exception) instead of text. `JSON.stringify` equality of option records is structural equality of values.
- React and Backbone rendering, jQuery dialogs, DOM updates (the navigation panel's text, `hot.render`, `selectCell`, `deselectCell`), AJAX calls and timers are left out; Handsontable's `countCols`, `getColHeader`, `getSelected`, `getDataAtCell` and the search plugin's results are parameters, and `setDataAtCell` is the list of changes returned.
- Geospatial code, `parse_coord`, `parse_latlong`, `parse_date`, picklist and UI-formatter parsing are left out (floating point, regular expressions, the database): `ParseValue` takes their outcomes from the field's schema record.
- The tree-record SQL query, cursors and `model.save` are left out: the query is a function from the remaining levels to the ids found, and saving appends to a table with consecutive ids. `force_upload_row`, which only raises `NotImplementedError`, is not modelled.
- The collector rule's database aggregate is the list of stored collectors; the atomicity of reading the maximum and saving is not modelled.
- Views' SQL loading and saving, the uploader subprocess, log files and `/proc` checks are left out; `import_workbench` is modelled only as far as dropping the header row and permuting columns.
- JavaScript objects are ordered property lists in insertion order; the rule that integer-like keys come first is not modelled, because mapping tokens are never array indexes once the `"0"` sentinel is filtered.
- Numbers are unbounded integers: the 2^53 limit of JavaScript numbers, exponent notation in `toString` and fractional cell values are not modelled.
- `isNaN` and `parseInt` are a parameter (`Fill.Coercion`); only the facts in `Fill.Follows` (decimal digits read as their value, the empty string is not `NaN` but parses to `NaN`) are assumed of them.
- Case mapping (`toUpperCase`, `lower`, `capitalize`) covers ASCII letters only.
- CellNavigation.Decode, CellTable.CellTable.NavigateCells, CellTable.CellTable.SearchCells, CellTable.CellTable.ReplaceCells: require at least one column; with none, `p / 0` is `NaN` in JavaScript and no cell could be selected.
- TreeHelper.DeepMergeObject: the in-place write into `target` and the aliasing of adopted sub-objects are modelled as a returned value, so sharing between the merged tree and the source paths is not captured.
- Converter.PlanTable: a table node that is a string rather than an object contributes no fields, where JavaScript would iterate the string's characters as entries.
- Converter: the `mustMatchPreferences` map that the source mutates is passed in and returned by every function.
- Mapper.AutomapperSuggestions: only the guard and the limit of three suggestions are modelled; the automapper's search is an oracle.
- Navigator and MappingLineData: the navigator's callbacks are modelled for `get_mapping_line_data_from_mapping_path` only; the other callers' callbacks are not shown.
- Version skew: the converter calls `getMappingLineData` and the mapper calls snake_case tree helpers, which the shown files do not export; the model connects them to `get_mapping_line_data_from_mapping_path` and to the camelCase `TreeHelper` functions.
- Mapper.GetLinesFromUploadPlan: the mapper's revision slices each flattened path as `[..., type, header]`, while the shown converter and tree helper flatten a column to `[..., field, type, header, options]`. The model keeps the shown code, so a plan of column mappings restores no mapped line (`Mapper.ColumnPlanRestoresNoLine`); only a `static` value that equals a header is written back.
- TreeRecords.RankValue, TreeRecords.WithValues, TreeRecords.Found, TreeRecords.Match, TreeRecords.HandleRow, TreeRecords.MatchRow, TreeRecords.ProcessRow: require the row to hold a cell for every rank column; the `KeyError` that `self.row[wbcol]` raises for a missing column is not modelled (the uploader builds the row from the data set's own columns).
- Converter.ColumnsRoundTrip: proved only for one non-tree upload table whose `wbcols` are distinct keys of known fields that are not relationships, each a bare-string existing header, with empty `static`, `toOne` and `toMany`. A column in object form is not covered: on the way back `extractHeaderNameFromHeaderStructure` writes `{...defaultLineOptions, column, ...options}` with `column` last, while `ColumnOptions.to_json` writes it first.
- Plain JavaScript objects used as dictionaries (`headerToCol` in `parseRowValidationResult`, the lookup object of `find_duplicate_mappings`, `mustMatchPreferences`) inherit `Object.prototype` keys such as `constructor` and `toString`; the model's maps and property lists hold only the keys written to them.
- The round trip of `static` values between plan and tree is not claimed: the plan side stores the bare value and the tree side reads a header record.

## Findings

| source | as written | input that shows it | evidently intended | confidence | as-written member | corrected member |
|---|---|---|---|---|---|---|
| specifyweb/frontend/js_src/lib/wbplanviewnavigator.ts:466 | the pre-hook reads the next path element as a tree rank and writes the formatted rank at the current position | table Determination, path `["taxon", "Family", "name"]`, step in Taxon at position 0: the path becomes `["$Family", "Family", "name"]`, advancing makes it `["$Family", "$Family", "name"]`, and the next step looks up the relationship `$Family` in Determination and finds no relationship type | the formatted rank replaces the element it was read from, giving `["taxon", "$Family", "name"]` | not executed | Navigator.PreRewriteAsWritten, Navigator.PreRewriteAsWrittenLosesRelationship, Navigator.StepAsWrittenDiverges | Navigator.PreRewrite, Navigator.PreRewriteMatchesAdvance |
| specifyweb/workbench/upload/treerecord.py:42 | `unparse` stores the plan under the key `'uploadble'` | any tree record: the mapping screen finds no `uploadable` key and throws a `TypeError` | the key `'uploadable'` that every reader expects | not executed | TreeRecords.UnparseUnreadable | TreeRecords.UnparseCorrectedReadable |
| specifyweb/frontend/js_src/lib/wbutils.js:57-67 | a backward scan starts at the selected cell and stops at once when that lies past the end of `cellInfo` | one invalid cell at index 0 and the selection at index 3: "previous" finds nothing | start at the last record, so the nearest earlier record is found | not executed | CellNavigation.PreviousPastEndMisses | CellNavigation.ClampedFindsNearest |
| specifyweb/frontend/js_src/lib/components/wbplanviewmapper.tsx:172-182 | the duplicate indexes are positions among the complete paths but are applied to positions among all lines | lines unmapped, `[a]`, `[a]` with the second `[a]` flagged (index 1): line 1 is cut instead of line 2 | each flagged index is mapped back to the line its path came from | not executed | Mapper.DeduplicateShifted | Mapper.DeduplicateCorrectedCutsFlagged, Mapper.DeduplicateCorrectedShifted |

The methods the views run keep the behaviour as written: `CellTable.CellTable.NavigateCells`, `Mapper.DeduplicateMappings` and `Navigator.GetMappingLineData` (with `MappingLineData.GetMappingLineData`, which walks with the pre-hook as written). The corrected definitions stand beside them with their properties proved. The navigator's walk takes the rewrite as a parameter (`Navigator.Rewrite`): the walk lemmas hold for both, `Navigator.MappingPathAfterCall` bounds what the rewrite as written leaves in the caller's path, and `Navigator.PreRewriteMatchesAdvance` shows that the corrected rewrite leaves no trace once the walk has advanced, while `Navigator.StepAsWrittenDiverges` shows that the rewrite as written does.
