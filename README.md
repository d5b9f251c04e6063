# A verified model of the integer and combinatorial core of a C ray tracer

This project models the parts of the kaspermeerts/raytracer C program that are not floating-point shading. It proves properties of that model in Dafny. The parts covered are:

- the kd-tree builder for triangle meshes: the split, the surface area heuristic, the recursion and the root box;
- the two-pass OBJ mesh builder, fed the callbacks of the OBJ reader;
- the axis-aligned box split and its "surface area";
- the scene-file helpers: `parse_bool`, `strdup`, the light-reference parser, the transform/inverse composition of the scene-graph walk, and the per-shape bounding boxes;
- the two linked-list matrix stacks (`MatrixStack` of matrix.c, `Matrix` of glm.c);
- the in-place 4x4 products and the matrix constructors;
- the integer raster: pixel writes and Bresenham's line;
- the binary PPM (Netpbm P6) writer.

Floats and doubles are modelled as reals. `HUGE_VAL` is a parameter `huge` wherever it seeds a min/max loop. A matrix is a `seq<real>` of 16 entries in the source's column-major layout: entry (i, j) is `m[4*j + i]`.

Files, one module each:

| file | module | models |
|---|---|---|
| geometry.dfy | Geometry | bbox.c, the axis cycle, min/max loops |
| kdtree.dfy | KdTrees | mesh.c kd-tree builder |
| mesh.dfy | Meshes | mesh.c OBJ callbacks, mesh_load, mesh_build_kd_tree |
| cstrings.dfy | CStrings | strcmp/strncmp, parse_bool, strdup |
| lights.dfy | LightRefs | import_light_refs |
| matrices.dfy | Matrices | the matrix algebra the C code computes |
| matrix_ops.dfy | MatrixOps | mat4_copy/mult/rmul/lmul and the constructors |
| matstack.dfy | MatrixStacks | matstack_new/push/pop/destroy |
| scenegraph.dfy | SceneGraph | import_graph |
| scenebox.dfy | SceneBoxes | build_bbox, build_bbox_plane, build_bbox_mesh |
| glm.dfy | Glm | the glm matrix stack and its in-place operations |
| raster.dfy | Rasters | raster_new, raster_pixel, raster_line |
| ppm.dfy | Ppm | ppm_write |
| colour.dfy, wrappers.dfy | Colours, Wrappers | colour.h constants; Option |

## Model

| member | source | states |
|---|---|---|
| Geometry.Next | mesh.c:395-410 | the next split axis differs from the current one (X -> Y -> Z -> X) |
| Geometry.Split | bbox.c:5-28 | the left half's max and the right half's min on the axis are the location; the other end on the axis and all other five fields are the input's |
| Geometry.SurfaceArea | bbox.c:30-33 | non-negative for a proper box, zero when any extent is zero |
| Geometry.SplitWithin | bbox.c:9-27 | when min <= location <= max on the axis, both halves lie inside the input box |
| Geometry.SplitAreaAdds | bbox.c:12-20 | the two halves' "surface areas" add up to the parent's, because the formula is linear in each extent |
| Geometry.Enclose | scene.c:466-478 | one step of a min/max loop: the box grows to contain the point and still contains the old box |
| Geometry.Hull | scene.c:454-479 | the box a min/max loop from a start box leaves contains the start box and every point |
| Geometry.HullStep | scene.c:457-479 | one more point of the loop is one more Enclose |
| Geometry.HullAppend | mesh.c:423-442 | looping over two runs of points is looping over the second run from where the first ended |
| Geometry.HullAttained | scene.c:454-479 | from the inverted HUGE_VAL box over finite points, every face of the result is a coordinate of some point |
| KdTrees.Part | mesh.c:282-307 | a side's part is no longer than the node's triangles (its membership and order are PartMembership and PartOfPrefix) |
| KdTrees.PartMembership | mesh.c:261-276 | a triangle is in the left (right) part iff it is one of the node's and some vertex is <= (>) the location |
| KdTrees.PartIndexed | mesh.c:297-306 | the children's triangles index existing vertices when the parent's do |
| KdTrees.SplitCovers | mesh.c:273-276 | every triangle lands in at least one child, so the child counts add up to at least the parent's |
| KdTrees.PartSizes | mesh.c:273-276 | the two part sizes add up to at least the number of triangles |
| KdTrees.PartOfPrefix | mesh.c:283-307 | the part of a prefix of the triangles is a prefix of the part: each child keeps the parent's order |
| KdTrees.Corners | mesh.c:423-428 | three vertex positions per triangle |
| KdTrees.CornerAt | mesh.c:426-428 | corner 3i+j is vertex j of triangle i |
| KdTrees.Candidates | mesh.c:367-380 | three candidate locations per triangle |
| KdTrees.CandidateOf | mesh.c:373-380 | candidate 3i+j is the axis coordinate of vertex j of triangle i |
| KdTrees.CandidateAt | mesh.c:373-380 | the same, read through the vertex array |
| KdTrees.CostsAt | mesh.c:382 | one cost per location |
| KdTrees.CostOf | mesh.c:382 | cost k is calculate_cost at location k |
| KdTrees.Costs | mesh.c:367-389 | one cost per candidate |
| KdTrees.FirstMin | mesh.c:383-387 | the index of the winning candidate lies within the candidates |
| KdTrees.FirstMinStep | mesh.c:383-387 | the scan replaces the best so far only when the new cost is strictly smaller |
| KdTrees.FirstMinIsFirstMinimum | mesh.c:383-387 | the winner's cost is <= every cost, and every earlier candidate costs strictly more |
| KdTrees.BestLocationIsBest | mesh.c:365-389 | the chosen location is the axis coordinate of some vertex of some triangle; its cost is <= every candidate's; every candidate before it costs strictly more |
| KdTrees.BestIsVertex | mesh.c:373-386 | the chosen location is the coordinate of some vertex of some triangle of the node |
| KdTrees.BestBeatsAll | mesh.c:382-387 | no candidate costs less than the chosen location |
| KdTrees.BestBeatsEarlier | mesh.c:383 | the strict `<` keeps the first minimum in triangle/vertex order |
| KdTrees.BlueprintShape | mesh.c:356-361 | the node is a leaf, keeping all its triangles and with no children, iff it has <= 10 triangles or is at depth 8; otherwise it is split at the best location, its children built on the next axis one level deeper in the two halves of its box |
| KdTrees.BlueprintHeight | mesh.c:412-413 | a tree built from depth d has no leaf more than 8 - d levels down |
| KdTrees.SplitNodeHeight | mesh.c:392-413 | the same for a node split at any location |
| KdTrees.BlueprintLeaves | mesh.c:356-413 | a triangle is in some leaf iff it is one of the node's triangles |
| KdTrees.SplitNodeLeaves | mesh.c:392-413 | the same for a node split at any location |
| KdTrees.KdNode.constructor | mesh.c:236-249 | not a leaf, no axis (-1), no location (HUGE_VAL), no children, no triangles |
| KdTrees.KdNode.SplitKdTree | mesh.c:251-314 | afterwards the node records the location, holds no triangles and is not a leaf; its two fresh children hold exactly the left and right parts, in order |
| KdTrees.KdNode.Attach | mesh.c:310-313 | the node gives up its triangles, records the location and takes the two children |
| KdTrees.KdNode.Child | mesh.c:257-258 | a fresh node from kd_node_new holding the given triangles |
| KdTrees.KdNode.SetTriangles | mesh.c:279-280 | a fresh node is handed its triangle array |
| KdTrees.KdNode.BuildSubtree | mesh.c:349-414 | the tree built below the node is Blueprint of its triangles, depth, axis and box |
| KdTrees.KdNode.BuildChildren | mesh.c:412-413 | each child becomes the Blueprint of its own triangles, one level deeper on the next axis |
| KdTrees.ChooseLocation | mesh.c:365-389 | the search loop returns BestLocation: the first candidate of least cost |
| KdTrees.Consider | mesh.c:372-387 | one step of the search keeps the scan's invariant: the best so far is the first least cost among the candidates tried |
| KdTrees.CountSides | mesh.c:259-277 | the counting pass yields the sizes of the left and right parts |
| KdTrees.Distribute | mesh.c:279-309 | the child arrays are calloc'd to the counted sizes and hold exactly the two parts |
| KdTrees.FillSides | mesh.c:282-307 | the filling pass writes exactly the left and right parts into arrays of the counted sizes, so the asserts at 308-309 hold |
| KdTrees.FillOne | mesh.c:285-306 | one triangle of the filling pass extends each cursor's prefix by that triangle exactly when it goes to that side |
| KdTrees.ClassifyVertices | mesh.c:261-271 | v_left[j] iff vertex j's coordinate is <= the location; its "any" and "any not" are the left and right tests |
| KdTrees.CalculateCost | mesh.c:316-347 | with the counters started at 0, the cost is leftCount * area(left half) + rightCount * area(right half), with the split's classification |
| KdTrees.CostAsWritten | mesh.c:319-345 | with the counters starting at garbage values, every unit of garbage adds its half's area to the intended cost |
| KdTrees.CostAsWrittenDiffers | mesh.c:319 | a left counter that starts at 1 makes an empty node cost 1 instead of 0 in the unit cube |
| Meshes.Assign | mesh.c:149-151 | add_index's three stores keep a triangle's three index arrays of length 3 |
| Meshes.Faces | mesh.c:128-156 | every face built from the callbacks has three slots per index array |
| Meshes.Extend | mesh.c:86-156 | what one more callback adds: a vertex, normal or texture coordinate is appended; a face start appends a zeroed face and resets the slot; an index rewrites the current face's slot with each 1-based index minus one and moves to the next slot; other callbacks change nothing |
| Meshes.PrefixCounts | mesh.c:47-73 | a prefix of the callbacks has no more of anything than the whole stream |
| Meshes.PrefixAdmissible | mesh.c:91-147 | a prefix of a stream that passes the second pass's asserts passes them too |
| Meshes.SlotBound | mesh.c:144 | no face receives more than three indices |
| Meshes.FacesIndexed | mesh.c:145 | with positive OBJ vertex indices within the count, every face indexes existing vertices |
| Meshes.Mesh.Allocate | mesh.c:209-214 | one zeroed array per kind, sized by the header; normals and texture coordinates only when the mesh has them |
| Meshes.Mesh.constructor | mesh.c:200 | no arrays yet and no kd-tree (null) |
| Meshes.Mesh.CountVertex | mesh.c:14-20 | exactly num_vertices goes up by one |
| Meshes.Mesh.CountNormal | mesh.c:22-29 | num_normals goes up by one and has_normals is set; nothing else changes |
| Meshes.Mesh.CountTexcoord | mesh.c:31-38 | num_texcoords goes up by one and has_texcoords is set; nothing else changes |
| Meshes.Mesh.CountTriangle | mesh.c:40-45 | exactly num_triangles goes up by one |
| Meshes.Mesh.BuildKdTree | mesh.c:416-450 | the root is a fresh node holding a copy of all the mesh's triangles, and the tree is Blueprint from depth 0 on X in the vertices' min/max box |
| Meshes.Mesh.Bounds | mesh.c:420-442 | the root box is the min/max loop over every vertex of every triangle, from the inverted HUGE_VAL box |
| Meshes.EncloseTriangle | mesh.c:425-441 | the six comparisons for one triangle enclose its three vertices |
| Meshes.RootBoxBounds | mesh.c:420-442 | the root box contains every vertex of every triangle |
| Meshes.MeshBuilder.constructor | mesh.c:164-168 | cursors start at 0, cur_triangle at -1 |
| Meshes.MeshBuilder.AddVertex | mesh.c:86-99 | stores (x, y, z) at cur_vertex, drops w, advances only that cursor |
| Meshes.MeshBuilder.AddTexcoord | mesh.c:101-112 | stores (u, v) at cur_texcoord and advances only that cursor |
| Meshes.MeshBuilder.AddNormal | mesh.c:114-126 | stores (x, y, z) at cur_normal and advances only that cursor |
| Meshes.MeshBuilder.AddTriangle | mesh.c:128-136 | cur_triangle goes up by one and the face slot resets to 0; nothing is stored |
| Meshes.MeshBuilder.AddIndex | mesh.c:138-156 | under its asserts, stores v-1, vt-1 and vn-1 in the current slot of the current face and moves to the next slot |
| Meshes.FirstPass | mesh.c:47-73 | from zeroed counters, the header counts every vertex, normal, texture coordinate and face, with has_ flags set iff there are any |
| Meshes.SecondPass | mesh.c:158-188 | fed the callbacks the first pass counted, the arrays hold exactly the positions, normals, texture coordinates and faces, in order |
| Meshes.Feed | mesh.c:170-183 | each callback keeps the builder's cursors and the arrays in step with the callbacks so far |
| Meshes.Dispatch | mesh.c:170-176 | the callback table sends each kind of callback to its add_ function and keeps the arrays in step |
| Meshes.Load | mesh.c:190-230 | a fresh mesh without kd-tree whose header is the first pass's counts and whose arrays hold exactly what the callbacks describe |
| CStrings.StrCmpZero | scene.c:61 | strcmp is 0 iff the strings are equal |
| CStrings.StrnCmpPrefix | scene.c:320 | strncmp(a, b, n) is 0 iff the first n characters of b are a prefix of a |
| CStrings.ParseBool | scene.c:58-62 | true iff the string is exactly "true" or "1" |
| CStrings.CStrTerminated | scene.c:72-73 | a string followed by its terminator reads back as itself |
| CStrings.Strdup | scene.c:64-76 | a fresh buffer of length len + 1 holding the characters and then NUL, which reads back as the input |
| LightRefs.Resolve | scene.c:318-321 | a token resolves to the last light whose name starts with it, or to none when no name does |
| LightRefs.EmptyTokenMatchesLast | scene.c:320 | the empty token names the last light there is |
| LightRefs.Scan | scene.c:311-330 | the start of the open token never lies past the examined position |
| LightRefs.ScanCount | scene.c:313-329 | until the end is reached, one token is closed per comma examined |
| LightRefs.RefsCount | scene.c:299-303 | when every comma separates, there is one reference more than there are commas |
| LightRefs.ScannedRefsCount | scene.c:313-316 | as the loop is written, a leading comma is not a separator, so the loop closes one token fewer than it counts |
| LightRefs.ScanFromOne | scene.c:315-316 | without a leading comma, skipping position 0 changes nothing |
| LightRefs.ScannedRefsAgree | scene.c:311-330 | without a leading comma, the loop as written closes exactly the comma-separated references |
| LightRefs.RefsJoin | scene.c:311-330 | the references contain no comma and, joined with commas, give back the attribute |
| LightRefs.Written | scene.c:318-328 | the slots the loop writes: no more than the references, and all of them when every one is found |
| LightRefs.WrittenResolves | scene.c:318-321 | each written slot names the last light that starts with its reference |
| LightRefs.WrittenStep | scene.c:318-328 | while every reference so far was found, the next one fills the next slot |
| LightRefs.WrittenStops | scene.c:322-326 | once a reference is not found, nothing more is written |
| LightRefs.ScanPrefix | scene.c:313-330 | scanning further only adds tokens |
| LightRefs.FailureIsFinal | scene.c:322-326 | an unresolved token at a cut is the last slot written |
| LightRefs.SceneLights.constructor | scene.h:47 | no lights and MAX_LIGHTS empty slots |
| LightRefs.SceneLights.ImportLightRefs | scene.c:287-333 | an empty attribute gives 0 lights and success; otherwise the count is commas + 1 and is recorded; above MAX_LIGHTS it fails with no slot written; otherwise the slots hold the resolved references up to the first unresolved one, and it succeeds iff none is unresolved |
| LightRefs.SceneLights.ImportLightRefsFixed | scene.c:311-330 | the same with every comma a separator; on success every counted slot names a light |
| LightRefs.SceneLights.ResolveRefs | scene.c:311-330 | the loop writes exactly Written of the scanned tokens, and succeeds iff every token resolves |
| LightRefs.SceneLights.CloseRef | scene.c:316-328 | one cut looks up the token into slot i and reports whether it was found |
| LightRefs.SceneLights.LookUp | scene.c:318-321 | slot i becomes the last light whose name starts with the token; nothing else changes |
| LightRefs.CountRefs | scene.c:299-303 | the counting loop yields commas + 1 |
| LightRefs.LeadingCommaLeavesSlot | scene.c:313-316 | ",x" counts two references, the loop closes the single token ",x", and the separated reading is "" and "x" |
| Matrices.ProductColumns | matrix.c:111-116 | the first n columns of a*b, entry (i, j) being row i of a times column j of b |
| Matrices.Product | matrix.c:104-120 | entry (i, j) is row i of a times column j of b |
| Matrices.Extensionality | matrix.c:108-110 | matrices with equal entries are equal |
| Matrices.Identity | matrix.c:168-176 | 1 on the diagonal, 0 elsewhere |
| Matrices.Scaling | matrix.c:178-186 | x, y, z and 1 on the diagonal, 0 elsewhere |
| Matrices.Translation | matrix.c:188-196 | the identity's first three columns, and (x, y, z, 1) in the last |
| Matrices.IdentityLeft | matrix.c:168-176 | I * m = m |
| Matrices.IdentityRight | matrix.c:168-176 | m * I = m |
| Matrices.TranslationInverse | scene.c:395-396 | translate(v) * translate(-v) = I, in both orders |
| Matrices.ScalingInverse | scene.c:402-403 | scale(x, y, z) * scale(1/x, 1/y, 1/z) = I, in both orders, for non-zero factors |
| Matrices.ScalingOnRight | glm.c:139-147 | scaling columns 0-2 by x, y, z and leaving column 3 is right-multiplying by diag(x, y, z, 1) |
| Matrices.TranslationOnRight | glm.c:154-163 | replacing the last column by M*(tx, ty, tz, 1) is right-multiplying by translate(tx, ty, tz) |
| Matrices.DistributeRight | matrix.c:115 | a sum of four products times c, distributed |
| Matrices.DistributeLeft | matrix.c:115 | a times a sum of four products, distributed |
| Matrices.RegroupSums | matrix.c:115 | the double sum of an entry of (ab)c regrouped as that of a(bc) |
| Matrices.AssociativeAt | scene.c:412-413 | entry (i, j) of (ab)c equals that of a(bc) |
| Matrices.Associative | scene.c:412-413 | (ab)c = a(bc), which lets composed transforms keep their inverses |
| Matrices.Transform3 | matrix.c:76-89 | the first three entries of m * (v, 0): the translation column is multiplied by 0 |
| Matrices.TransformIdentity | matrix.c:61-74 | the identity leaves every 4-vector unchanged |
| Matrices.Transform3IgnoresTranslation | matrix.c:82-84 | a translation does not move a direction |
| Matrices.TransformsColumn0 | matrix.c:61-74 | column 0 of a*w is a transforming column 0 of w |
| Matrices.ColumnMatrix | matrix.c:61-74 | a matrix with a given vector as column 0 |
| Matrices.TransformProduct | matrix.c:61-74 | transforming by a*b is transforming by b, then by a |
| MatrixOps.Copy | matrix.c:99-102 | dst holds src's 16 entries |
| MatrixOps.Mult | matrix.c:104-120 | c = a*b, even when c is a, because row i of a is cached before row i of c is written |
| MatrixOps.Rmul | matrix.c:139-153 | a := a*b in place, equal to what mat4_mult puts in a separate c |
| MatrixOps.Lmul | matrix.c:122-136 | a := b*a in place, because column j of a is cached before it is rewritten |
| MatrixOps.LoadIdentity | matrix.c:168-176 | the entries become the identity |
| MatrixOps.LoadScale | matrix.c:178-186 | the entries become diag(x, y, z, 1) |
| MatrixOps.LoadTranslate | matrix.c:188-201 | the entries become translate(x, y, z); mat4_translate_vector passes a vector's components |
| MatrixStacks.Frame.constructor | matrix.c:47 | a fresh entry with two distinct 16-entry arrays |
| MatrixStacks.Entries | matrix.h:14-18 | one (matrix, inverse) pair per frame |
| MatrixStacks.MatrixStack.Contents | matrix.h:14-18 | one (matrix, inverse) pair per entry, top first |
| MatrixStacks.MatrixStack.constructor | matrix.c:21-26 | an empty stack |
| MatrixStacks.MatrixStack.Push | matrix.c:43-59 | one entry more in front; on an empty stack it is (identity, identity), otherwise a copy of the previous top; the entries below are untouched |
| MatrixStacks.MatrixStack.Pop | matrix.c:34-41 | on a non-empty stack, removes exactly the top entry, so a push followed by a pop restores the stack |
| MatrixStacks.MatrixStack.Destroy | matrix.c:28-32 | pops until the stack is empty |
| SceneGraph.LastNamed | scene.c:349-351 | the last index whose name equals the requested one, or none when no name does |
| SceneGraph.Walk | scene.c:335-425 | importing a node only prepends surfaces to the list |
| SceneGraph.WalkChildren | scene.c:414-420 | importing the children in order, stopping at the first failure, only prepends |
| SceneGraph.ExtendsExtends | scene.c:345-346 | prepending twice is prepending |
| SceneGraph.WellFormedScalable | scene.c:397-403 | a graph whose transforms are invertible has no zero scale factor |
| SceneGraph.BuiltPairsInvertible | scene.c:389-403 | the matrix pairs that Translate (-v) and Scale (1/v) build undo each other and map points to points |
| SceneGraph.AffineProduct | scene.c:412 | a product of point-preserving matrices preserves points |
| SceneGraph.ComposeKeepsInverse | scene.c:412-413 | if matrix * inverse = I and M * M^-1 = I, then (matrix M)(M^-1 inverse) = I |
| SceneGraph.WalkConsistent | scene.c:335-425 | from a top pair that undo each other, every surface the walk records holds a matrix and an inverse whose product is I |
| SceneGraph.DescendConsistent | scene.c:410-413 | the pair handed to a transform node's children still undo each other |
| SceneGraph.WalkChildrenConsistent | scene.c:414-420 | the same for a node's children from index k on |
| SceneGraph.SurfaceList.constructor | scene.c:345-346 | an empty surface list |
| SceneGraph.FindNamed | scene.c:349-351 | the lookup loop without a break returns the last match |
| SceneGraph.ImportGraph | scene.c:335-425 | success and the surface list are as Walk says from the old top pair; on success the stack's entries are restored |
| SceneGraph.ImportTransform | scene.c:376-423 | push, compose, import the children, pop: as Walk says, with the stack restored on success |
| SceneGraph.PushComposed | scene.c:410-413 | the new top is (old matrix * M, M^-1 * old inverse) above the old entries |
| SceneGraph.ImportChildren | scene.c:414-420 | the loop over the children is WalkChildren under the composed top pair |
| SceneGraph.ImportChild | scene.c:417-418 | one child imported under the composed top pair |
| SceneGraph.TransformPair | scene.c:389-403 | Translate builds translate(v) and translate(-v); Scale builds scale(v) and scale(1/v); Rotate keeps the two matrices it is given |
| SceneGraph.Compose | scene.c:412-413 | the top becomes (matrix * mat, inv * inverse); the entries below are unchanged |
| SceneBoxes.TransformPoint | scene.c:462-464 | the image of a point under an affine matrix: the transform of (p, 1) divided by w = 1 |
| SceneBoxes.PlaneCorners | scene.c:431-437 | the four transformed corners of the plane |
| SceneBoxes.Min4 | scene.c:439-441 | the smallest of four numbers: no larger than each, and one of them |
| SceneBoxes.Max4 | scene.c:443-445 | the largest of four numbers: no smaller than each, and one of them |
| SceneBoxes.PlaneBoxPadded | scene.c:427-448 | every corner lies 1e-3 inside the box on every side, and each face is 1e-3 from some corner |
| SceneBoxes.PaddedBoxPadded | scene.c:439-445 | the same for any four points |
| SceneBoxes.PaddedBoxAttained | scene.c:439-445 | each face of the padded box is 1e-3 away from one of the four points |
| SceneBoxes.SquareBound | scene.c:498-505 | a coordinate difference whose square is at most r^2 is at most r in size |
| SceneBoxes.SphereBoxHoldsBall | scene.c:498-505 | every point of the ball lies inside centre ± radius |
| SceneBoxes.CylinderBoxHoldsAll | scene.c:506-509 | the infinite box holds every finite point |
| SceneBoxes.WorldVertices | scene.c:457-464 | the mesh's vertices carried into world coordinates, one for one |
| SceneBoxes.MeshBoxTight | scene.c:450-482 | the mesh box contains every world vertex, and each face touches one |
| SceneBoxes.ShapeBox | scene.c:484-519 | a box for every supported shape, none exactly for an unsupported one (where the source exits); a sphere gets centre ± radius, a cylinder the infinite box |
| SceneBoxes.BuildBboxMesh | scene.c:450-482 | the loop yields the min/max box of the world vertices from the inverted HUGE_VAL box |
| Glm.GlmMatrix.constructor | glm.c:74 | a fresh 16-entry matrix |
| Glm.GlmStack.Contents | glm.h:8-11 | one matrix per node, top first |
| Glm.MatricesOf | glm.h:8-11 | one matrix per node |
| Glm.GlmStack.constructor | glm.c:55 | an empty stack |
| Glm.GlmStack.Push | glm.c:70-83 | when malloc fails the stack is unchanged; otherwise one new node in front whose entries copy the old top when there is one |
| Glm.GlmStack.Pop | glm.c:61-68 | on a non-empty stack, removes exactly the top node |
| Glm.GlmStack.Free | glm.c:85-89 | pops until the stack is empty |
| Glm.NewMatrixStack | glm.c:53-59 | a stack of one node holding the identity |
| Glm.LoadIdentity | glm.c:47-51 | entries 0, 5, 10 and 15 are 1, all others 0 |
| Glm.LoadMatrix | glm.c:91-94 | the matrix holds the caller's 16 entries |
| Glm.SaveMatrix | glm.c:96-99 | the caller's array holds the matrix's 16 entries, so load then save round-trips |
| Glm.MultMatrix | glm.c:101-104 | m := m * b in place, although the product's output aliases its left operand |
| Glm.Scale | glm.c:139-147 | m := m * diag(x, y, z, 1) |
| Glm.Translate | glm.c:154-163 | m := m * translate(tx, ty, tz) |
| Rasters.CellIndex | raster.c:32 | a cell inside the raster has an index inside the buffer |
| Rasters.Painted | raster.c:27-35 | painting points through either pixel guard keeps the buffer's size |
| Rasters.PaintedCell | raster.c:29-32 | a cell is painted iff some point the guard lets through lands on it |
| Rasters.AsWrittenMissesLowerRows | raster.c:29 | under the guard as written, no cell from row `width` down is ever painted, whatever the points |
| Rasters.CellAsWritten | raster.c:29-32 | as written, the guard passes iff 0 <= x < width and 0 <= y < width, and the cell is width*y + x |
| Rasters.CellAsWrittenOverruns | raster.c:29 | on a 2-by-1 raster, (0, 1) passes the guard and writes cell 2, one past the buffer |
| Rasters.CellAsWrittenSafeWhenTall | raster.c:29-32 | the guard as written stays inside the buffer when width <= height, and is exact when they are equal |
| Rasters.Raster.constructor | raster.c:7-18 | records width and height; colour and depth buffers of width*height zeroed cells |
| Rasters.Raster.Pixel | raster.c:27-35 | corrected: returns true iff (x, y) is on the raster, and writes only cell width*y + x then |
| Rasters.Raster.PixelAsWritten | raster.c:27-35 | as written: returns true iff 0 <= x < width and 0 <= y < width, and writes only cell width*y + x then |
| Rasters.Raster.Line | raster.c:38-85 | the buffer is painted red at exactly the points of the line as written, each through raster_pixel's guard as written |
| Rasters.Raster.LineFixed | raster.c:38-85 | the same with the step test `error > 0`, through the corrected guard |
| Rasters.Raster.Trace | raster.c:67-84 | the loop paints the points of the normalised line, in order, through the given pixel guard |
| Rasters.Raster.Plot | raster.c:71-74 | one pixel of the loop, with x and y swapped back for a steep line |
| Rasters.Normalised | raster.c:49-65 | after the swaps x0 <= x1 and |dy| <= dx; steep iff |y1-y0| > |x1-x0|; dx = max(|x1-x0|, |y1-y0|); the ends are the original ends, in either order |
| Rasters.Normalise | raster.c:46-62 | the swaps compute Normalised |
| Rasters.NextRow | raster.c:75-83 | the error update and the row step of one iteration |
| Rasters.TracingStep | raster.c:69-84 | one iteration keeps the loop's invariant |
| Rasters.TracingDone | raster.c:69 | when x passes x1 the rows plotted are the line's rows |
| Rasters.Points | raster.c:71-74 | one point per row |
| Rasters.PointsStep | raster.c:71-74 | the next point is column x0 + k, swapped back when steep |
| Rasters.YsShape | raster.c:67-84 | one row per column from the start row, each step 0 or one in the fixed direction |
| Rasters.LineShape | raster.c:38-85 | max(|dx|, |dy|) + 1 points, the first an end point, each on column x0 + k of the normalised line, and y moves by 0 or by one in the fixed direction (+1 iff y0 < y1) |
| Rasters.LineAsWrittenLeaves | raster.c:67-83 | the line from (0, 0) to (1, 0) is plotted as (0, 0), (1, -1) |
| Rasters.YsSteps | raster.c:75-83 | with the strict test the error stays in (-dx, 0] and the number of steps taken so far is pinned by it |
| Rasters.StepsPinned | raster.c:67 | the only t with d*dx - dx/2 <= t*dx < d*dx - dx/2 + dx is d |
| Rasters.LineFixedEnds | raster.c:38-85 | with the strict test the line runs from one end point to the other |
| Rasters.StrictRowsEnd | raster.c:64-84 | with the strict test the rows of a normalised line start at y0 and end at y1 |
| Rasters.StrictLastRow | raster.c:67-84 | over dx > 0 columns with the strict test the rows move exactly dy steps |
| Ppm.Stream.constructor | ppm.c:8 | nothing written yet |
| Ppm.Stream.Write | ppm.c:26 | the bytes are appended to what was written |
| Ppm.Digit | ppm.c:14 | a decimal digit character for 0-9 |
| Ppm.NatDigits | ppm.c:14 | decimal digits with no leading zero |
| Ppm.Decimal | ppm.c:14 | printf's %d: an optional minus and digits |
| Ppm.NatDigitsValue | ppm.c:14 | the digits read back as the number |
| Ppm.DecimalValue | ppm.c:14 | the sign and digits of %d read back as the number |
| Ppm.Ascii | ppm.c:13-15 | one byte per header character |
| Ppm.AsciiAppend | ppm.c:13-15 | writing two strings in turn writes their concatenation |
| Ppm.HeaderText | ppm.c:13-15 | the header is "P6\n", width, a space, height, "\n", then "255\n" |
| Ppm.ChannelByte | ppm.c:23-25 | CLAMP(v*255, 0, 255) truncated: 0 for v <= 0, 255 for v >= 1, otherwise the integer part of v*255 |
| Ppm.PixelBytes | ppm.c:22-26 | three bytes per pixel; alpha is dropped |
| Ppm.FlippedCell | ppm.c:21 | output row j reads buffer row height-1-j, inside the buffer |
| Ppm.RowBytes | ppm.c:19-27 | three bytes per pixel of the row |
| Ppm.BodyLength | ppm.c:17-28 | 3*width bytes per row |
| Ppm.PixelOffset | ppm.c:17-27 | where byte ch of pixel i of row j sits |
| Ppm.RowByte | ppm.c:19-26 | byte ch of pixel i of output row j is the channel byte of buffer cell width*(height-1-j) + i |
| Ppm.BodyByte | ppm.c:17-28 | the same within the first n rows |
| Ppm.PpmLayout | ppm.c:17-28 | 3*width*height body bytes; byte 3(width*j + i) + ch is channel ch of buffer cell width*(height-1-j) + i, clamped |
| Ppm.PpmWrite | ppm.c:8-31 | always returns true, and writes exactly the header followed by the flipped, clamped 3-bytes-per-pixel body |
| Ppm.BodyStep | ppm.c:17-28 | one more output row appends its bytes |
| Ppm.WriteHeader | ppm.c:13-15 | the three fprintf calls write the header |
| Ppm.WriteRow | ppm.c:19-27 | the inner loop writes the bytes of output row j, left to right |

## Left out

- Floating point: coordinates, costs and colours are reals. NaN, infinities, rounding, and the float/double conversions (the kd-tree location is a `float`) are not modelled.
- KdTrees.ChooseLocation: `best_cost` starts at HUGE_VAL. The model starts it at "none", so the first candidate always wins. The two differ only when every cost is HUGE_VAL or more, which no real cost is.
- I/O: file handling and `ReadObjFile` (mesh_load and the OBJ passes). The reader is reduced to the sequence of callbacks it makes. Parse errors and fopen failures, and so mesh_load's NULL returns, are not modelled.
- Meshes.Load: the second pass is only modelled on callback streams that pass its asserts. A failing `assert` aborts the program in the source.
- Meshes.Mesh.Allocate: a kind the mesh does not have gets an empty array rather than an unset pointer.
- Meshes.Mesh.constructor: `kd_tree` starts as null. mesh_load mallocs the mesh and never sets it, so in the source it is indeterminate until mesh_build_kd_tree; Meshes.Load inherits this.
- XML: libxml traversal, `xmlGetProp`, `parse_double`/`parse_vec3`. A scene-graph node is given as a value with its attributes already parsed, and a light attribute as a string.
- Light lookup by `struct Light`: `import_light_refs` stores pointers to lights. The model stores the index of the light.
- SceneGraph.ImportGraph: requires every Scale node to have non-zero factors, because 1/0 is not a real number. The source would compute infinities.
- SceneGraph.WalkConsistent: a Rotate node's two matrices are taken as given and assumed to undo each other (the predicate `WellFormed`). mat4_rotate, its quaternion code and `tan`/`sin`/`cos` are not part of this model.
- Projections and homogeneous transforms: mat4_ortho/frustum/perspective, glmOrtho/Frustum/Perspective/Rotate/MultQuaternion and glmTransformVector are not part of this model.
- glmScaleUniform and glmTranslateVector are not modelled separately; they only forward to Glm.Scale and Glm.Translate.
- SceneBoxes.TransformPoint: `vec4_homogeneous_divide` and `mat4_transform3_homo` are not part of this model. The model defines the divide and uses it only for matrices whose bottom row is (0, 0, 0, 1), where w = 1.
- mat3_transform, mat4_from_mat3, mat4_print and glmPrintMatrix: not modelled. They are unused by the core or only print.
- Memory: malloc failure (except glmPushMatrix, whose NULL check is modelled), `free`, and raster_destroy are not modelled. Glm.NewMatrixStack assumes its allocation succeeds, since the source then dereferences the result.
- Glm.GlmStack.Push: on an empty stack the new node's entries are left unspecified, as malloc leaves them.
- Integer overflow: `int` counts, `width*height` and raster coordinates are unbounded integers.
- Rasters.Raster.PixelAsWritten: requires width <= height. On a raster wider than tall the guard as written lets a point past the end of the buffer through (the raster.c:29 finding), and that out-of-bounds write is not modelled.
- Rasters.Raster.Line: requires width <= height, for the same reason, because it writes through PixelAsWritten.
- Rasters.Raster.constructor: negative sizes are excluded, since calloc of a negative count is meaningless. The depth buffer is allocated and zeroed but is not otherwise used here.
- Geometry.Split: the assertion for an axis other than X, Y or Z (bbox.c:21-22) cannot fire, because the model's axis type has exactly those three values.
- Ppm.PpmWrite: `fwrite`'s results are ignored, as in the source. The stream just accumulates bytes, and "%d" is modelled as decimal digits with an optional minus sign.

## Findings

| source | as written | input that shows it | evidently intended | confidence | as-written member | corrected member |
|---|---|---|---|---|---|---|
| mesh.c:319 | `left_tris` and `right_tris` are incremented without being initialised, so the cost adds garbage times each half's area | a node with no triangles and a left counter that happens to start at 1, split at 0.5 in the unit cube: cost 1 instead of 0 | both counters start at 0, so the cost is leftCount*area(left) + rightCount*area(right) | not executed | KdTrees.CostAsWritten, KdTrees.CostAsWrittenDiffers | KdTrees.CalculateCost |
| scene.c:313-316 | `end` is advanced before it is tested, so a comma at position 0 is never taken for a separator while the count includes it | the attribute ",x": num_lights = 2, but only the token ",x" is looked up and slot 1 is never written | every comma separates two references, giving "" and "x" | not executed | LightRefs.SceneLights.ImportLightRefs, LightRefs.LeadingCommaLeavesSlot | LightRefs.SceneLights.ImportLightRefsFixed, LightRefs.RefsCount |
| raster.c:29 | the guard compares y with the width, not the height | a 2-by-1 raster and the point (0, 1): the guard passes and cell 2 is written, one past the 2-cell buffer; on a 1-by-3 raster the points (0, 1) and (0, 2) are rejected though they are on it | y < height | not executed | Rasters.CellAsWritten, Rasters.CellAsWrittenOverruns, Rasters.Raster.PixelAsWritten, Rasters.AsWrittenMissesLowerRows | Rasters.Raster.Pixel, Rasters.Raster.LineFixed |
| raster.c:76 | the row steps when `error >= 0`, and the error starts at -(deltax/2) = 0 for deltax = 1 | the line from (0, 0) to (1, 0) is plotted as (0, 0), (1, -1) and misses its end point | step when `error > 0`, so the line ends at (x1, y1) | not executed | Rasters.Raster.Line, Rasters.LineAsWrittenLeaves | Rasters.Raster.LineFixed, Rasters.LineFixedEnds |
