# Discussion helpers and SAML mapping rules, modelled in Dafny

This project models two pieces of logic from an Open edX code base and proves properties of them.

The first piece is the set of SAML 2.0 login rules of the third-party-auth backend
(`common/djangoapps/third_party_auth/saml.py`). It covers:

- the `eduPersonEntitlement` check that rejects a login;
- the extra user details read off the assertion's attributes;
- the SAP SuccessFactors provider's field mappings and value mappings;
- the translation of an OData user record into registration fields;
- the report of missing configuration keys, and the accessors those keys guard;
- the choice of identity-provider class.

The second piece is the discussion-forum helpers (`lms/djangoapps/django_comment_client/utils.py`):

- the dictionary combinators `extract`, `strip_none`, `strip_blank`, `merge_dict` and `safe_content`;
- `initialize_discussion_info`. It groups the course's discussion modules by normalised
  category, builds the nested category tree, sorts every node's `children` by sort key,
  and caches the result once in `_DISCUSSIONINFO`.
- the three getters that read that cache;
- `get_ability`, `get_annotated_content_info` and the recursive `get_annotated_content_infos`.

Modules:

| file | module | what it holds |
|---|---|---|
| `wrappers.dfy` | `Wrappers` | `Option` and `Result` (a Python exception is a `Failure`) |
| `pystr.dfy` | `PyStr` | Python 2 `str`: `strip`, `split`, `join`, `in`, `<=`, `str(int)` |
| `sets.dfy` | `KeySets` | facts about the key sets that drive loops over dictionaries |
| `category_path.dfy` | `CategoryPaths` | parsing and normalising `/`-separated categories |
| `category_tree.dfy` | `CategoryTree` | category nodes, insertion of one category path, walks |
| `category_sort.dfy` | `CategorySort` | `sort_map_entries` |
| `discussion_info.dfy` | `DiscussionInfo` | the two passes of `initialize_discussion_info` and the cache class |
| `content.dfy` | `DiscussionContent` | dictionary helpers, abilities, annotation of a thread |
| `saml.dfy` | `Saml` | the SAML rules |

Design choices:

- **Python values.** A post is a `map<string, Value>`. `Value` covers `None`, booleans,
  integers, strings, lists and dictionaries. Python 2 equality identifies `True` with `1`,
  and `PyEq` makes this explicit for the vote and subscription tests.
- **Loops become methods.** Loops that walk a dictionary visit its keys in an arbitrary
  order, written `:|`. Their contracts state order-independent results.
- **Loops over lists keep their order.** The course's modules are a sequence in the
  module store's iteration order, and so are a thread's children.
- **The cache is a class.** `DiscussionInfoCache.info` is `None` until the first successful
  initialisation and never changes afterwards.
- **Quirks kept as written.** Two quirks of the SAML source are modelled exactly:
  - line 159 adds `United States` at the top level of the default value mapping;
  - line 200 stores `override[field]` for a field without a default.

  `UnitedStatesIsTopLevel` and `NewFieldTakesNestedEntry` state what each one does.

## Model

| member | source | states |
|---|---|---|
| DiscussionContent.Extract | lms/djangoapps/django_comment_client/utils.py:27-28 | the keys are exactly the requested keys; each value is the dictionary's value, or None when the key is absent |
| DiscussionContent.StripNone | lms/djangoapps/django_comment_client/utils.py:30-31 | keeps exactly the entries whose value is not None, unchanged |
| DiscussionContent.StripNoneIdempotent | lms/djangoapps/django_comment_client/utils.py:30-31 | stripping None twice is stripping it once |
| DiscussionContent.BlankIffWhiteSpace | lms/djangoapps/django_comment_client/utils.py:34-35 | a value is blank iff it is a string made only of white space |
| DiscussionContent.StripBlank | lms/djangoapps/django_comment_client/utils.py:33-36 | keeps exactly the entries whose value is not a blank string, unchanged |
| DiscussionContent.StripBlankIdempotent | lms/djangoapps/django_comment_client/utils.py:33-36 | stripping blanks twice is stripping them once |
| PyStr.StripEmptyIffAllSpace | lms/djangoapps/django_comment_client/utils.py:35 | `len(s.strip()) == 0` iff every character of `s` is white space |
| DiscussionContent.MergeDict | lms/djangoapps/django_comment_client/utils.py:38-39 | the keys are the union of both; the second dictionary wins on a shared key; other values come from the first |
| DiscussionContent.SafeContent | lms/djangoapps/django_comment_client/utils.py:248-261 | every key is whitelisted; a whitelisted field appears iff it is present and not None; `username`/`user_id` appear iff `anonymous` is exactly False and the field is present and not None; values are unchanged and never None |
| DiscussionContent.SafeContentHidesAuthor | lms/djangoapps/django_comment_client/utils.py:258-259 | unless `anonymous` is exactly False, neither `username` nor `user_id` is in the result |
| DiscussionContent.SafeContentIdempotent | lms/djangoapps/django_comment_client/utils.py:248-261 | filtering a filtered post changes nothing |
| DiscussionContent.GetAbility | lms/djangoapps/django_comment_client/utils.py:181-189 | KeyError iff `type` is absent; for a thread, the thread views, no endorse, and openclose checked; for a comment, the comment views with endorse checked and no openclose; any other type gets the comment views with neither |
| DiscussionContent.AbilityMonotone | lms/djangoapps/django_comment_client/utils.py:181-189 | granting more views never removes an ability |
| DiscussionContent.AnnotatedContentInfo | lms/djangoapps/django_comment_client/utils.py:191-201 | KeyError on a missing `id`, then on a missing `type`; `voted` is `up` iff the id is upvoted, `down` iff downvoted and not upvoted, empty iff neither (Python equality); `subscribed` iff the id is among the subscribed ids; the ability is `get_ability`'s |
| DiscussionContent.Children | lms/djangoapps/django_comment_client/utils.py:207 | annotating the children succeeds only if `children` is absent, a list, an empty string or an empty dictionary, and otherwise raises TypeError (a non-empty string or dictionary iterates, but annotating its first item fails); every child is structurally smaller than the post |
| DiscussionContent.Subtree | lms/djangoapps/django_comment_client/utils.py:205-208 | the visit order begins with the post itself |
| DiscussionContent.NodeStep | lms/djangoapps/django_comment_client/utils.py:206-207 | annotating one post fails on a non-dictionary (TypeError), then with the info's KeyError, then with the children's TypeError; on success it contributes the string form of its id as key and its annotated info |
| DiscussionContent.StrOf | lms/djangoapps/django_comment_client/utils.py:206 | `str()` of an id: a string id is its own key, `None` and the booleans print as in Python, and an integer id is its decimal numeral without leading zeros, whose digits denote its absolute value, with `-` exactly when negative |
| DiscussionContent.StrOfIntInjective | lms/djangoapps/django_comment_client/utils.py:206 | posts with distinct integer ids are stored under distinct `str(id)` keys |
| DiscussionContent.FoldNodesAppend | lms/djangoapps/django_comment_client/utils.py:205-208 | annotating a concatenation is annotating the first part and then the second, and an error in the first part stops the rest |
| DiscussionContent.FoldNodesSucceeds | lms/djangoapps/django_comment_client/utils.py:203-210 | annotation succeeds iff every visited post can be annotated |
| DiscussionContent.FoldNodesFirstError | lms/djangoapps/django_comment_client/utils.py:203-210 | a failure reports the error of the first visited post that fails |
| DiscussionContent.FoldNodesKeys | lms/djangoapps/django_comment_client/utils.py:203-210 | on success the keys are the initial keys plus `str(id)` of every visited post |
| DiscussionContent.FoldNodesLastWins | lms/djangoapps/django_comment_client/utils.py:206 | each post's info is stored under its key unless a later post has the same key |
| DiscussionContent.Annotate | lms/djangoapps/django_comment_client/utils.py:205-208 | the recursive walk equals annotating, in order, the post and every post below it |
| DiscussionContent.GetAnnotatedContentInfos | lms/djangoapps/django_comment_client/utils.py:203-210 | succeeds iff every post of the thread can be annotated; then holds exactly one key, `str(id)`, per post of the thread |
| CategoryPaths.CategoryPath | lms/djangoapps/django_comment_client/utils.py:107 | a parsed path has at least one component; every component is stripped and free of `/` |
| CategoryPaths.NormalizeCategory | lms/djangoapps/django_comment_client/utils.py:100 | the normalised key parses (as at line 107) to the same path as the raw category |
| CategoryPaths.NormalizeCategoryIdempotent | lms/djangoapps/django_comment_client/utils.py:100 | normalising a normalised category changes nothing |
| CategoryPaths.NormalizedCategoryDeterminedByPath | lms/djangoapps/django_comment_client/utils.py:100-107 | two normalised categories with the same path are equal |
| PyStr.SplitJoin | lms/djangoapps/django_comment_client/utils.py:100 | joining separator-free pieces and splitting again gives the pieces back |
| PyStr.JoinSplit | lms/djangoapps/django_comment_client/utils.py:100 | splitting and joining with the same separator gives the string back |
| CategoryTree.EntriesOf | lms/djangoapps/django_comment_client/utils.py:120-122 | the filed titles are exactly the pending entries' titles |
| CategoryTree.EntriesOfLastWins | lms/djangoapps/django_comment_client/utils.py:120-122 | each title holds the id and sort key of the last entry with that title |
| CategoryTree.InsertPath | lms/djangoapps/django_comment_client/utils.py:106-122 | the node's own entries and sort key stay; its sub-categories gain the path's first component |
| CategoryTree.WalkInsertPath | lms/djangoapps/django_comment_client/utils.py:106-122 | off the path nothing changes; on it every node exists; a created node's sort key is its level name; an existing node keeps its sort key and entries; the last node gains the entries |
| CategoryTree.WalkErase | lms/djangoapps/django_comment_client/utils.py:70-77 | trees equal up to `children` have the same nodes, entries and sort keys at every path |
| CategorySort.InsertByKey | lms/djangoapps/django_comment_client/utils.py:77 | inserting into a sorted sequence keeps it sorted and adds exactly that element |
| CategorySort.SortByKey | lms/djangoapps/django_comment_client/utils.py:77 | the result is a permutation of the input, ordered by sort key |
| CategorySort.TitlesOf | lms/djangoapps/django_comment_client/utils.py:77 | the titles, position by position |
| CategorySort.EntryPairs | lms/djangoapps/django_comment_client/utils.py:71-73 | one `(title, sort_key)` pair per entry, nothing else |
| CategorySort.SortedNodeArranged | lms/djangoapps/django_comment_client/utils.py:70-77 | `children` lists every entry and sub-category title once, ordered by sort key, with entries before sub-categories of equal key |
| CategorySort.InsertByKeyEntriesFirst | lms/djangoapps/django_comment_client/utils.py:77 | inserting a pair keeps every entry ahead of every sub-category with the same sort key |
| CategorySort.SortByKeyEntriesFirst | lms/djangoapps/django_comment_client/utils.py:70-77 | the sort is stable where it matters: pairs collected as entries (the first loop) stay ahead of sub-categories with the same sort key |
| CategorySort.SortMapEntries | lms/djangoapps/django_comment_client/utils.py:70-77 | entries, sub-categories and sort keys unchanged; every node's `children` is a permutation of its entry and sub-category titles ordered by sort key, with an entry before a sub-category of equal key, recursively |
| DiscussionInfo.MissingKey | lms/djangoapps/django_comment_client/utils.py:95-97 | no key is reported iff `id`, `discussion_category` and `for` are all present |
| DiscussionInfo.CollectFailsOnFirstFaulty | lms/djangoapps/django_comment_client/utils.py:93-97 | the first pass fails iff some discussion lacks one of the three keys, and it reports the first missing key of the first such module |
| DiscussionInfo.CollectIdMapLastWins | lms/djangoapps/django_comment_client/utils.py:93-99 | each discussion id maps to the location and title of the last module with that id |
| DiscussionInfo.CollectIdMapKeys | lms/djangoapps/django_comment_client/utils.py:93-99 | every id in the map is some discussion's id |
| DiscussionInfo.CollectKeysNormalized | lms/djangoapps/django_comment_client/utils.py:100 | every grouping key is a normalised category |
| DiscussionInfo.CollectKeysCover | lms/djangoapps/django_comment_client/utils.py:100-102 | every discussion's normalised category is a grouping key |
| DiscussionInfo.CollectPendingValues | lms/djangoapps/django_comment_client/utils.py:100-102 | each key holds exactly the entries of the discussions grouped under it, in module order |
| DiscussionInfo.PendingForLastWins | lms/djangoapps/django_comment_client/utils.py:98-102 | the last discussion with a category and title is filed with its id and its sort key, which defaults to the title |
| DiscussionInfo.CollectFailureSticks | lms/djangoapps/django_comment_client/utils.py:93-97 | an error raised on a prefix of the modules is the error of the whole pass |
| DiscussionInfo.CollectDiscussions | lms/djangoapps/django_comment_client/utils.py:91-102 | the first loop computes the specified id map and grouping, or the specified KeyError |
| DiscussionInfo.CollectSpec | lms/djangoapps/django_comment_client/utils.py:93-102 | the first pass can fail only with the KeyError of `id`, `discussion_category` or `for`, and every category it groups holds at least one pending entry |
| DiscussionInfo.DistinctKeyPaths | lms/djangoapps/django_comment_client/utils.py:105-107 | no two grouping keys share a tree path |
| DiscussionInfo.InsertPreservesBuilt | lms/djangoapps/django_comment_client/utils.py:105-122 | inserting one more category keeps the tree built from the categories so far |
| DiscussionInfo.BuiltFromErase | lms/djangoapps/django_comment_client/utils.py:124 | sorting keeps what the tree files where |
| DiscussionInfo.BuildCategoryMap | lms/djangoapps/django_comment_client/utils.py:104-122 | the node at each category's path files exactly that category's entries; no other node files anything; every node is named by its sort key and lies on some category's path |
| DiscussionInfo.DiscussionFiled | lms/djangoapps/django_comment_client/utils.py:93-124 | each discussion is filed under its title, with its id and sort key, in the node reached by its stripped category components |
| DiscussionInfo.DiscussionInIdMap | lms/djangoapps/django_comment_client/utils.py:93-99 | each discussion id maps to its location and title |
| DiscussionInfo.DiscussionInfoCache.constructor | lms/djangoapps/django_comment_client/utils.py:24 | the cache starts empty |
| DiscussionInfo.DiscussionInfoCache.InitializeDiscussionInfo | lms/djangoapps/django_comment_client/utils.py:80-130 | a set cache is returned unchanged; otherwise a failure leaves it empty and a success stores information with every property above |
| DiscussionInfo.DiscussionInfoCache.GetDiscussionIdMap | lms/djangoapps/django_comment_client/utils.py:47-54 | the cached id map, initialising the cache first if needed |
| DiscussionInfo.DiscussionInfoCache.GetDiscussionTitle | lms/djangoapps/django_comment_client/utils.py:56-61 | the cached title of the id, or `(no title)` for an unknown id |
| DiscussionInfo.DiscussionInfoCache.GetDiscussionCategoryMap | lms/djangoapps/django_comment_client/utils.py:63-68 | the cached sorted category tree |
| Saml.FirstMissing | common/djangoapps/third_party_auth/saml.py:64-68 | nothing is missing iff every expected entitlement is present; otherwise it reports the first expected one that is absent |
| Saml.CheckEntitlements | common/djangoapps/third_party_auth/saml.py:62-68 | rejects with AuthForbidden iff `requiredEntitlements` is configured and one of them is absent from the attribute's list (an absent attribute counts as empty) |
| Saml.FieldValue | common/djangoapps/third_party_auth/saml.py:118 | the first value of the attribute, None when it is absent, IndexError when it has no value |
| Saml.AddFieldsSucceeds | common/djangoapps/third_party_auth/saml.py:117-120 | the extra details fail iff some defined attribute has an empty value list |
| Saml.AddFieldsKeys | common/djangoapps/third_party_auth/saml.py:117-120 | one key per defined name, plus the keys already there |
| Saml.AddFieldsLastWins | common/djangoapps/third_party_auth/saml.py:117-120 | a name's value comes from the last definition with that name |
| Saml.UserDetailsSpec | common/djangoapps/third_party_auth/saml.py:115-121 | the details are the base details plus the defined names; base details not named by a definition are unchanged; each name gets the first value of its attribute, or None |
| Saml.GetUserDetails | common/djangoapps/third_party_auth/saml.py:110-121 | the loop computes exactly the specified details |
| Saml.UserDetails | common/djangoapps/third_party_auth/saml.py:110-121 | the standard provider's details fail only with IndexError, and otherwise hold exactly the base keys plus the defined names |
| Saml.FieldMappings | common/djangoapps/third_party_auth/saml.py:182-185 | the keys are the default keys plus the override keys; an override wins; the defaults are kept otherwise |
| Saml.DefaultValueMapping | common/djangoapps/third_party_auth/saml.py:153-161 | the default value mapping has exactly the keys `country` and `United States`: a table from every country name to its code, and the bare string `US` at top level |
| Saml.MergedEntry | common/djangoapps/third_party_auth/saml.py:196-200 | a default table is merged with an override table (union of keys, the override winning); a new field takes the override's entry named after the field, or raises KeyError; a default table with a bare-string override stays as it is for `""` and raises ValueError otherwise; a bare-string default raises AttributeError; a bare-string override of a new field raises TypeError |
| Saml.MergedFields | common/djangoapps/third_party_auth/saml.py:194-201 | one outcome per default or overridden field |
| Saml.DefaultKept | common/djangoapps/third_party_auth/saml.py:195 | a field without an override keeps its default |
| Saml.NewFieldTakesNestedEntry | common/djangoapps/third_party_auth/saml.py:199-200 | an override `{gender: {m: male}}` raises KeyError, and `{gender: {gender: x}}` stores `x` |
| Saml.ValueMappings | common/djangoapps/third_party_auth/saml.py:187-201 | succeeds iff every override merges; then holds every default and overridden field with its merged value, whatever the iteration order; a failure is the error of some overridden field |
| Saml.UnitedStatesIsTopLevel | common/djangoapps/third_party_auth/saml.py:153-161 | a `country` of `United States` is translated only through the country table; a field named `United States` with an empty value raises TypeError |
| Saml.Translate | common/djangoapps/third_party_auth/saml.py:171-172 | a value is replaced by its table entry iff its field's mapping contains it; it is left unchanged when the mapping does not contain it; a bare-string mapping that contains it raises TypeError |
| Saml.CollectFields | common/djangoapps/third_party_auth/saml.py:168 | one key per registration name in the field mapping; each value is the record's value for a SAP field mapped to it, or empty |
| Saml.TranslateFields | common/djangoapps/third_party_auth/saml.py:169-173 | succeeds iff every field translates; then every field holds its translation |
| Saml.GetRegistrationFields | common/djangoapps/third_party_auth/saml.py:163-173 | KeyError(`d`) without a record; the error of a failing override when the value mappings do not merge; otherwise success whenever every mapped SAP value translates, TypeError as the only failure, and on success one key per registration name, each the translated record value of a SAP field mapped to it |
| Saml.ValueMappingFrom | common/djangoapps/third_party_auth/saml.py:194-201 | when every override merges, the mapping holds every field's merged value |
| Saml.MissingFrom | common/djangoapps/third_party_auth/saml.py:241 | exactly the absent variables, in their declared order |
| Saml.MissingVariables | common/djangoapps/third_party_auth/saml.py:234-247 | None iff every required key is configured; otherwise a non-empty list of exactly the absent required keys, in declaration order |
| Saml.Setting | common/djangoapps/third_party_auth/saml.py:218-232 | a configured key's value, KeyError for an absent one |
| Saml.SapsfIdpUrl | common/djangoapps/third_party_auth/saml.py:210-212 | the OAuth root followed by `idp`, KeyError exactly when the root is not configured |
| Saml.SapsfTokenUrl | common/djangoapps/third_party_auth/saml.py:214-216 | the OAuth root followed by `token`, KeyError exactly when the root is not configured |
| Saml.SapsfPrivateKey | common/djangoapps/third_party_auth/saml.py:218-220 | the configured private key, KeyError exactly when it is absent |
| Saml.OdataApiRootUrl | common/djangoapps/third_party_auth/saml.py:222-224 | the configured API root URL, KeyError exactly when it is absent |
| Saml.OdataCompanyId | common/djangoapps/third_party_auth/saml.py:226-228 | the configured company id, KeyError exactly when it is absent |
| Saml.OdataClientId | common/djangoapps/third_party_auth/saml.py:230-232 | the configured client id, KeyError exactly when it is absent |
| Saml.Timeout | common/djangoapps/third_party_auth/saml.py:203-208 | the configured timeout, and 10 seconds when none is configured |
| Saml.SapsfUrlsShareRoot | common/djangoapps/third_party_auth/saml.py:210-216 | the two OAuth URLs exist together, as the root followed by `idp` and by `token` |
| Saml.AccessorsGuardedByMissingVariables | common/djangoapps/third_party_auth/saml.py:210-247 | nothing is reported missing iff every accessor the OData client uses succeeds |
| Saml.SapGetUserDetails | common/djangoapps/third_party_auth/saml.py:282-325 | base-detail errors propagate; with a key missing, the assertion details are returned; otherwise KeyError without `username`, the assertion details when the request fails, else every outcome of `get_registration_fields` for the returned record, registration fields on success and its error otherwise |
| Saml.GetSamlIdpClass | common/djangoapps/third_party_auth/saml.py:339-353 | the SAP class iff the SAP key; the standard class for every other string |
| Saml.IdpChoicesDistinct | common/djangoapps/third_party_auth/saml.py:328-336 | the two choices have distinct keys that select distinct classes |

## Left out

- Logging (`log.warning`, `log.error`, `log.info`, `logging.info`) everywhere.
- `SAMLAuthBackend.get_idp`, `setting`, `auth_url` and `_config`: these are database and site
  lookups and `Http404`.
- `_create_saml_auth`: it wraps a SAML library object's methods for debug logging.
- `get_odata_api_client` and the HTTP request in the SAP `get_user_details`: these are network
  I/O.
  - The record the API returns is the parameter `odata`, and `None` stands for a
    `RequestException`.
  - The request URL built at lines 294-299 is not modelled.
- The base `SAMLIdentityProvider.get_user_details` belongs to the SAML library. Its result is
  the parameter `base`.
- The `django_countries` table is foreign data. It is the parameter `countryCodes`.
- Configuration values of unexpected types are not representable, because `ProviderConfig`
  gives every setting its expected type. Examples are a `requiredEntitlements` that is not a
  list and a field definition without `name` or `urn`.
- OData record values other than strings are not modelled.
- `check_permissions_by_view` is an external permission check. It is the uninterpreted
  parameter `permitted`.
- The keys `upvoted_ids`, `downvoted_ids` and `subscribed_thread_ids` of `user_info` are
  assumed present.
- `str()` of a list or dictionary id is the uninterpreted parameter `containerStr`.
- Python equality is modelled only for `None`, booleans, integers, strings, lists and
  dictionaries. Floats are not modelled.
- `DiscussionInfo.CourseModule` types every `metadata` value as a string, while Python accepts
  any value. A non-string `discussion_category` would raise `AttributeError` at `split`
  (utils.py line 100). A non-string `sort_key` would be ordered by Python 2's mixed-type
  comparison in `sorted` (line 77). Ids and titles of other types are not represented.
- `PyStr.Strip`, and so `CategoryPaths.NormalizeCategory` and `CategoryPaths.CategoryPath`,
  remove only the six ASCII white-space characters of `str.strip()`. For a `unicode`
  category, `unicode.strip()` also removes other white space, such as U+00A0, U+0085,
  U+001C-U+001F and U+3000. Such a category would get a different key and path in Python.
- `DiscussionContent.StrOf` returns a string id unchanged. In Python 2, `str()` of a
  `unicode` id holding non-ASCII characters raises `UnicodeEncodeError` (utils.py line 206).
  The model has no such failure.
- No distinction is made between `str` and `unicode`. `_is_blank` tests
  `isinstance(v, str)`, so Python 2 keeps a white-space `unicode` value, while the model treats
  every string alike.
- Python's recursion limit in `annotate` is not modelled.
- `JsonResponse`, `JsonError`, `HtmlResponse` and `ViewNameMiddleware` are Django HTTP
  plumbing.
- `QueryCountDebugMiddleware` uses database timing and floats.
- `url_for_tags`, `render_mustache`, `permalink`, `extend_content` and
  `get_courseware_context` are URL reversing and template rendering.
- `get_full_modules` reads the module store. The course's modules are the sequence `ms`, in
  the store's iteration order.
- The unused `url_course_id` string at line 87 is not modelled. `course_id` only selects the
  course's modules at line 89, which are the parameter `ms`.
- The category tree is a value, not nested dictionaries reached through aliases.
  `InsertPath` rebuilds the path it walks. Sharing between the walked `node` and the tree is
  not captured.
- The tree's root has no `sort_key` in the source. The model gives it the empty string,
  which nothing reads.
- `DiscussionInfo.BuildCategoryMap` requires its keys to be normalised categories. Every key
  the first pass produces is one (`CollectKeysNormalized`). The path of each key is computed
  once into a map before the loop.
- `CategorySort.SortMapEntries` states order, permutation and that an entry comes before a
  sub-category of equal sort key. It does not fix the order among entries, or among
  sub-categories, of equal sort key: that is dictionary iteration order. Nor does it fix
  the order of an entry and a sub-category that share both title and sort key, whose pairs
  are equal.
- `Saml.ValueMappings` states only that a failure reports the error of some failing field.
  Which field fails first depends on dictionary order.
- `Saml.GetRegistrationFields` promises success when every mapped SAP value translates, and
  `TypeError` as the only translation failure. When several SAP fields feed one
  registration name and only some of them translate, whether it raises `TypeError` depends
  on which of them dictionary order lets win, so that case is left open.
  `Saml.TranslateFields` states the exact condition for the collected fields.
- `openedx/core/djangoapps/video_pipeline/tests/test_api.py` holds mock-based tests of a
  REST client, with no logic of their own.
